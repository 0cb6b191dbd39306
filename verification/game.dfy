/**
  The Maus & Käse grid game (app.js, `game`, `resetGame`, `spawnFood`,
  `handleGameInput`, `stepGame`): a mouse made of grid cells moves one cell
  per tick across a wrapping board, crashes into itself, and grows by one
  cell for every piece of cheese it eats.

  The browser's `Math.random` is replaced by parameters: `draws` are the
  successive candidate cells `spawnFood` would draw (already floored into the
  board), and `wordIdx` is the index `randomWord` would draw.
 */
module MausGame {
  import opened Optional
  import opened Seqs
  import opened Grid
  import opened Vocabulary
  import opened Learning

  const InitialSpeedMs := 140
  const MinSpeedMs := 70
  const SpeedStepMs := 4

  /** Which arrow keys are held during the current frame. */
  datatype Keys = Keys(up: bool, down: bool, left: bool, right: bool)

  /**
    One play session. `body[0]` is the head; `dir` is the committed direction,
    `nextDir` the buffered one; `movedAt` is the timestamp (in milliseconds)
    of the last tick and `speedMs` the minimum time between ticks.
   */
  datatype Game = Game(
    cols: int,
    rows: int,
    body: seq<Vec>,
    dir: Vec,
    nextDir: Vec,
    cheese: Vec,
    movedAt: real,
    speedMs: int,
    alive: bool,
    score: int,
    currentWord: Option<Word>
  )

  /** The tick interval after `score` pieces of cheese: 4 ms faster per piece, never below 70 ms. */
  function SpeedFor(score: int): int {
    if InitialSpeedMs - SpeedStepMs * score < MinSpeedMs then MinSpeedMs
    else InitialSpeedMs - SpeedStepMs * score
  }

  /** One cheese's speed-up: `Math.max(70, speedMs - 4)`. */
  function NextSpeed(speedMs: int): int {
    if speedMs - SpeedStepMs < MinSpeedMs then MinSpeedMs else speedMs - SpeedStepMs
  }

  /** The invariant every session keeps from `Reset` on. */
  predicate Wf(g: Game) {
    && g.cols >= 1 && g.rows >= 1
    && |g.body| >= 1
    && AllInBounds(g.cols, g.rows, g.body)
    && Distinct(g.body)
    && InBounds(g.cols, g.rows, g.cheese)
    && g.cheese !in g.body
    && IsUnit(g.dir) && IsUnit(g.nextDir)
    && g.nextDir != Neg(g.dir)
    && g.score >= 0
    && |g.body| == g.score + 1
    && g.speedMs == SpeedFor(g.score)
    && (g.currentWord.Some? ==> g.currentWord.value in Words)
  }

  // ---------------------------------------------------------------------------
  // Spawning cheese

  /** The random source hands `spawnFood` only cells of the board, and eventually one off the body. */
  predicate SpawnOk(cols: int, rows: int, body: seq<Vec>, draws: seq<Vec>) {
    && AllInBounds(cols, rows, draws)
    && exists i | 0 <= i < |draws| :: draws[i] !in body
  }

  /**
    The rejection loop of `spawnFood`: draw candidates until one is not on the
    body. The result is that first free draw.
   */
  function SpawnFood(cols: int, rows: int, body: seq<Vec>, draws: seq<Vec>): (c: Vec)
    requires SpawnOk(cols, rows, body, draws)
    ensures InBounds(cols, rows, c) && c !in body
    ensures exists i | 0 <= i < |draws| :: draws[i] == c && forall j | 0 <= j < i :: draws[j] in body
    decreases |draws|
  {
    if draws[0] !in body then
      draws[0]
    else
      assert SpawnOk(cols, rows, body, draws[1..]) by {
        var i :| 0 <= i < |draws| && draws[i] !in body;
        assert draws[1..][i - 1] == draws[i];
      }
      var c := SpawnFood(cols, rows, body, draws[1..]);
      var i :| 0 <= i < |draws[1..]| && draws[1..][i] == c && forall j | 0 <= j < i :: draws[1..][j] in body;
      assert draws[i + 1] == c;
      assert forall j | 0 <= j < i + 1 :: draws[j] in body by {
        forall j | 0 <= j < i + 1
          ensures draws[j] in body
        {
          if j > 0 {
            assert draws[j] == draws[1..][j - 1];
          }
        }
      }
      c
  }

  /**
    With fewer segments than cells, a random source exists that ends the loop:
    a single draw of a free cell.
   */
  lemma SpawnPossible(cols: nat, rows: nat, body: seq<Vec>)
    requires |body| < cols * rows
    ensures exists c :: SpawnOk(cols, rows, body, [c])
  {
    FreeCellExists(cols, rows, body);
    var c :| InBounds(cols, rows, c) && c !in body;
    assert [c][0] !in body;
    assert SpawnOk(cols, rows, body, [c]);
  }

  /**
    A body of distinct cells that covers the whole board leaves `spawnFood`
    nothing to find: no random source ends its loop.
   */
  lemma SpawnImpossibleOnFullBoard(cols: nat, rows: nat, body: seq<Vec>, draws: seq<Vec>)
    requires AllInBounds(cols, rows, body) && Distinct(body)
    requires |body| == cols * rows
    ensures !SpawnOk(cols, rows, body, draws)
  {
    if SpawnOk(cols, rows, body, draws) {
      var i :| 0 <= i < |draws| && draws[i] !in body;
      FullBoardNoFreeCell(cols, rows, body, draws[i]);
    }
  }

  // ---------------------------------------------------------------------------
  // Reset

  function Center(cols: int, rows: int): Vec {
    Vec(cols / 2, rows / 2)
  }

  /** A fresh session on a `cols` by `rows` board: a one-cell mouse in the middle, heading right. */
  function Reset(cols: int, rows: int, draws: seq<Vec>): (g: Game)
    requires cols >= 1 && rows >= 1
    requires SpawnOk(cols, rows, [Center(cols, rows)], draws)
    ensures Wf(g)
    ensures g.cols == cols && g.rows == rows
    ensures |g.body| == 1 && cols - 1 <= 2 * g.body[0].x <= cols && rows - 1 <= 2 * g.body[0].y <= rows
    ensures g.dir == Right && g.nextDir == Right
    ensures g.speedMs == InitialSpeedMs && g.score == 0 && g.alive && g.movedAt == 0.0
    ensures g.currentWord == None
  {
    Game(cols, rows, [Center(cols, rows)], Right, Right,
         SpawnFood(cols, rows, [Center(cols, rows)], draws),
         0.0, InitialSpeedMs, true, 0, None)
  }

  /**
    On a one-cell board the new mouse already covers the board, so the
    `spawnFood` inside `resetGame` can never find a cell: no draws satisfy
    `Reset`'s requirement, and the script's reset never returns.
   */
  lemma ResetHangsOnOneCellBoard(draws: seq<Vec>)
    ensures !SpawnOk(1, 1, [Center(1, 1)], draws)
  {
    SpawnImpossibleOnFullBoard(1, 1, [Center(1, 1)], draws);
  }

  // ---------------------------------------------------------------------------
  // Input

  /** The directions in the order `handleGameInput` tries them. */
  const Priority: seq<Vec> := [Up, Down, Left, Right]

  function Held(k: Keys, d: Vec): bool {
    if d == Up then k.up
    else if d == Down then k.down
    else if d == Left then k.left
    else d == Right && k.right
  }

  /** A held direction that would not turn the mouse straight back. */
  predicate Qualifies(k: Keys, dir: Vec, d: Vec) {
    Held(k, d) && d != Neg(dir)
  }

  /**
    Buffers the first held arrow key, in the order Up, Down, Left, Right,
    that does not reverse the committed direction; with none, `nextDir` stays.
   */
  function HandleInput(g: Game, k: Keys): (r: Game)
    ensures r == g.(nextDir := r.nextDir)
    ensures r.nextDir == g.nextDir || (IsUnit(r.nextDir) && r.nextDir != Neg(g.dir))
    ensures IsUnit(g.dir) ==>
      forall i | 0 <= i < |Priority| ::
        Qualifies(k, g.dir, Priority[i]) && (forall j | 0 <= j < i :: !Qualifies(k, g.dir, Priority[j]))
        ==> r.nextDir == Priority[i]
    ensures IsUnit(g.dir) && (forall i | 0 <= i < |Priority| :: !Qualifies(k, g.dir, Priority[i]))
      ==> r.nextDir == g.nextDir
    ensures Wf(g) ==> Wf(r)
  {
    assert Priority[0] == Up && Priority[1] == Down && Priority[2] == Left && Priority[3] == Right;
    if k.up && g.dir.y != 1 then g.(nextDir := Up)
    else if k.down && g.dir.y != -1 then g.(nextDir := Down)
    else if k.left && g.dir.x != 1 then g.(nextDir := Left)
    else if k.right && g.dir.x != -1 then g.(nextDir := Right)
    else g
  }

  // ---------------------------------------------------------------------------
  // Tick

  /** The tick runs: the session is alive and at least `speedMs` have passed since the last one. */
  predicate Ticks(g: Game, now: real) {
    g.alive && now - g.movedAt >= g.speedMs as real
  }

  /** Where the head goes this tick: one cell along the buffered direction, wrapped. */
  function NextHead(g: Game): Vec
    requires |g.body| >= 1
  {
    Wrap(g.cols, g.rows, Add(g.body[0], g.nextDir))
  }

  predicate Crashes(g: Game, now: real)
    requires |g.body| >= 1
  {
    Ticks(g, now) && NextHead(g) in g.body
  }

  predicate Eats(g: Game, now: real)
    requires |g.body| >= 1
  {
    Ticks(g, now) && NextHead(g) !in g.body && NextHead(g) == g.cheese
  }

  /**
    What a frame's random source must provide for `Step`: only when the mouse
    eats are the draws used, and then they must be a word index in range and
    candidate cells on the board, one of them off the grown body.
   */
  predicate StepOk(g: Game, now: real, draws: seq<Vec>, wordIdx: nat)
    requires |g.body| >= 1
  {
    Eats(g, now) ==> wordIdx < |Words| && SpawnOk(g.cols, g.rows, [NextHead(g)] + g.body, draws)
  }

  /**
    One call of `stepGame(now)`: the timing gate, committing the buffered
    direction, moving the head with wrap, the self-collision check, and then
    either growing (eating) or shifting (not eating). Returns the new session
    and the new progress.
   */
  function Step(g: Game, p: Progress, now: real, draws: seq<Vec>, wordIdx: nat): (r: (Game, Progress))
    requires |g.body| >= 1
    requires StepOk(g, now, draws, wordIdx)
    // gated off: nothing changes
    ensures !Ticks(g, now) ==> r == (g, p)
    // a tick commits the buffered direction and records the time
    ensures Ticks(g, now) ==>
      r.0.movedAt == now && r.0.dir == g.nextDir && r.0.nextDir == g.nextDir
      && r.0.cols == g.cols && r.0.rows == g.rows
    // crash: only `alive` (besides the time and direction) changes
    ensures Ticks(g, now) ==> (!r.0.alive <==> NextHead(g) in g.body)
    ensures Crashes(g, now) ==>
      r.0.body == g.body && r.0.score == g.score && r.0.speedMs == g.speedMs
      && r.0.cheese == g.cheese && r.0.currentWord == g.currentWord && r.1 == p
    // no cheese: same length, the head enters and the tail cell is vacated
    ensures Ticks(g, now) && !Crashes(g, now) && !Eats(g, now) ==>
      |r.0.body| == |g.body| && r.0.body[0] == NextHead(g) && r.0.body[1..] == g.body[..|g.body| - 1]
      && r.0.score == g.score && r.0.speedMs == g.speedMs && r.0.cheese == g.cheese
      && r.0.currentWord == g.currentWord && r.1 == p
    // cheese: one segment longer, one point more, a little faster, fresh cheese off the body
    ensures Eats(g, now) ==>
      |r.0.body| == |g.body| + 1 && r.0.body[0] == NextHead(g) && r.0.body[1..] == g.body
      && r.0.score == g.score + 1
      && r.1.totalCheeseEaten == p.totalCheeseEaten + 1
      && r.0.speedMs == NextSpeed(g.speedMs)
      && InBounds(g.cols, g.rows, r.0.cheese) && r.0.cheese !in r.0.body
      && r.0.currentWord == Some(Words[wordIdx])
      && r.1.learnedWords == Learn(p.learnedWords, Words[wordIdx].de)
      && r.1.flashcardsReviewed == p.flashcardsReviewed && r.1.diaryEntries == p.diaryEntries
    ensures g.speedMs >= MinSpeedMs ==> MinSpeedMs <= r.0.speedMs <= g.speedMs
    ensures Distinct(p.learnedWords) ==> Distinct(r.1.learnedWords)
  {
    if !g.alive then (g, p)
    else if now - g.movedAt < g.speedMs as real then (g, p)
    else
      var moved := g.(movedAt := now, dir := g.nextDir);
      var head := Wrap(g.cols, g.rows, Add(g.body[0], moved.dir));
      if head in g.body then
        (moved.(alive := false), p)
      else
        var body := [head] + g.body;
        if head == g.cheese then
          var w := WordAt(wordIdx);
          (moved.(body := body, score := g.score + 1, currentWord := Some(w), speedMs := NextSpeed(g.speedMs),
                  cheese := SpawnFood(g.cols, g.rows, body, draws)),
           p.(totalCheeseEaten := p.totalCheeseEaten + 1, learnedWords := Learn(p.learnedWords, w.de)))
        else
          (moved.(body := body[..|body| - 1]), p)
  }

  /** Shifting a body of distinct cells forward onto a free cell keeps its cells distinct. */
  lemma ShiftKeepsDistinct(head: Vec, body: seq<Vec>)
    requires |body| >= 1 && Distinct(body) && head !in body
    ensures Distinct([head] + body[..|body| - 1])
  {
  }

  /** The speed schedule is decreasing, floored at 70 ms, and starts at 140 ms. */
  lemma SpeedBounds(score: int)
    requires score >= 0
    ensures MinSpeedMs <= SpeedFor(score) <= InitialSpeedMs
    ensures SpeedFor(score + 1) <= SpeedFor(score)
    ensures SpeedFor(score + 1) == NextSpeed(SpeedFor(score))
  {
  }

  /** Every tick keeps the session invariant. */
  lemma StepPreservesWf(g: Game, p: Progress, now: real, draws: seq<Vec>, wordIdx: nat)
    requires Wf(g)
    requires StepOk(g, now, draws, wordIdx)
    ensures Wf(Step(g, p, now, draws, wordIdx).0)
  {
    if Ticks(g, now) && !Crashes(g, now) {
      WrapTorus(g.cols, g.rows, g.body[0], g.nextDir);
      if Eats(g, now) {
        SpeedBounds(g.score);
      } else {
        ShiftKeepsDistinct(NextHead(g), g.body);
      }
    }
  }
}
