/**
  The game scene of the main loop (app.js, `loop`, case 'game'): every frame
  first buffers the held arrow keys, then offers the tick the frame's time,
  then draws the board, whose crash overlay carries the Restart button.
  Runs of frames keep the session invariant and the monotone speed ramp.
 */
module Session {
  import opened Optional
  import opened Seqs
  import opened Grid
  import opened Vocabulary
  import opened Learning
  import opened MausGame

  /**
    What one display frame supplies: its timestamp, the held keys, its random
    draws, whether the overlay's Restart button is clicked, and the board size
    `resetGame` would derive from the canvas at this frame (the window may have
    been resized since the session began).
   */
  datatype Frame = Frame(now: real, keys: Keys, draws: seq<Vec>, wordIdx: nat, restart: bool, cols: int, rows: int)

  /** Whether the session is still alive once the tick of this frame has run. */
  predicate AliveAfter(h: Game, now: real)
    requires |h.body| >= 1
  {
    if Ticks(h, now) then NextHead(h) !in h.body else h.alive
  }

  /** The Restart button is shown (the session is dead after the tick) and clicked. */
  predicate Restarts(g: Game, f: Frame)
    requires |g.body| >= 1
  {
    f.restart && !AliveAfter(HandleInput(g, f.keys), f.now)
  }

  /** The frame's random draws suffice for the tick and, on Restart, for the fresh session's cheese. */
  predicate FrameOk(g: Game, f: Frame)
    requires |g.body| >= 1
  {
    && StepOk(HandleInput(g, f.keys), f.now, f.draws, f.wordIdx)
    && (Restarts(g, f) ==>
          f.cols >= 1 && f.rows >= 1 && SpawnOk(f.cols, f.rows, [Center(f.cols, f.rows)], f.draws))
  }

  /**
    One frame of the game scene: `handleGameInput`, `stepGame(now)`, and the
    Restart button of `drawGame`, which calls `resetGame` on a dead session.
    Without a restart the board keeps its size, the committed direction never
    turns straight back, the cheese counter rises exactly with the score, and a
    crashed session only buffers keys.
   */
  function Tick(g: Game, p: Progress, f: Frame): (r: (Game, Progress))
    requires |g.body| >= 1
    requires FrameOk(g, f)
    ensures Wf(g) ==> Wf(r.0)
    ensures Wf(g) && !Restarts(g, f) ==> r.0.dir != Neg(g.dir) && r.0.speedMs <= g.speedMs
    ensures !Restarts(g, f) ==>
      r.0.score >= g.score && r.1.totalCheeseEaten - p.totalCheeseEaten == r.0.score - g.score
      && r.0.cols == g.cols && r.0.rows == g.rows
    ensures Restarts(g, f) ==> r.0 == Reset(f.cols, f.rows, f.draws) && r.1 == p
    ensures Wf(g) ==> r.1.totalCheeseEaten - p.totalCheeseEaten >= r.0.score - g.score
    ensures !g.alive && !f.restart ==> r.0 == g.(nextDir := r.0.nextDir) && r.1 == p
    ensures Distinct(p.learnedWords) ==> Distinct(r.1.learnedWords)
  {
    var h := HandleInput(g, f.keys);
    var t := Step(h, p, f.now, f.draws, f.wordIdx);
    assert Wf(g) ==> Wf(t.0) && t.0.speedMs <= g.speedMs by {
      if Wf(g) {
        StepPreservesWf(h, p, f.now, f.draws, f.wordIdx);
        SpeedBounds(g.score);
      }
    }
    if f.restart && !t.0.alive then (Reset(f.cols, f.rows, f.draws), t.1) else t
  }

  /** No frame clicks Restart. */
  predicate NoRestart(frames: seq<Frame>) {
    forall i | 0 <= i < |frames| :: !frames[i].restart
  }

  /**
    The session after a sequence of frames, or `None` when some frame did not
    supply the randomness `FrameOk` asks for (the browser would have kept
    drawing); `RunStopsAtShortFrame` says which frame that is.
   */
  function Run(g: Game, p: Progress, frames: seq<Frame>): (r: Option<(Game, Progress)>)
    requires Wf(g)
    ensures |frames| == 0 ==> r == Some((g, p))
    ensures r.Some? ==> Wf(r.value.0)
    ensures r.Some? ==> r.value.1.totalCheeseEaten - p.totalCheeseEaten >= r.value.0.score - g.score
    ensures r.Some? && Distinct(p.learnedWords) ==> Distinct(r.value.1.learnedWords)
    ensures r.Some? && NoRestart(frames) ==>
      r.value.0.cols == g.cols && r.value.0.rows == g.rows
      && r.value.0.score >= g.score && r.value.0.speedMs <= g.speedMs
      && r.value.1.totalCheeseEaten - p.totalCheeseEaten == r.value.0.score - g.score
    ensures r.Some? && NoRestart(frames) && !g.alive ==>
      !r.value.0.alive && r.value.0.body == g.body && r.value.1 == p
    decreases |frames|
  {
    if |frames| == 0 then Some((g, p))
    else if !FrameOk(g, frames[0]) then None
    else
      var t := Tick(g, p, frames[0]);
      assert NoRestart(frames) ==> NoRestart(frames[1..]) && !frames[0].restart;
      Run(t.0, t.1, frames[1..])
  }

  /**
    Runs are frame-by-frame: one frame more is one `Tick` more after the run
    so far, and a run that has given up stays given up.
   */
  lemma {:induction false} RunExtends(g: Game, p: Progress, frames: seq<Frame>, f: Frame)
    requires Wf(g)
    ensures var r := Run(g, p, frames);
      r.Some? && FrameOk(r.value.0, f) ==> Run(g, p, frames + [f]) == Some(Tick(r.value.0, r.value.1, f))
    ensures var r := Run(g, p, frames);
      r.Some? && !FrameOk(r.value.0, f) ==> Run(g, p, frames + [f]).None?
    ensures Run(g, p, frames).None? ==> Run(g, p, frames + [f]).None?
    decreases |frames|
  {
    if |frames| == 0 {
      assert frames + [f] == [f];
      assert Run(g, p, [f]) == (if FrameOk(g, f) then Run(Tick(g, p, f).0, Tick(g, p, f).1, []) else None);
    } else {
      assert (frames + [f])[0] == frames[0] && (frames + [f])[1..] == frames[1..] + [f];
      if FrameOk(g, frames[0]) {
        var t := Tick(g, p, frames[0]);
        RunExtends(t.0, t.1, frames[1..], f);
      }
    }
  }

  /** Frame `k` is where a run gives up: the frames before it run, and it falls short. */
  predicate FallsShortAt(g: Game, p: Progress, frames: seq<Frame>, k: int)
    requires Wf(g)
  {
    && 0 <= k < |frames|
    && Run(g, p, frames[..k]).Some?
    && !FrameOk(Run(g, p, frames[..k]).value.0, frames[k])
  }

  /** A run that gets past its first frame continues as the run of the remaining frames. */
  lemma RunUnfolds(g: Game, p: Progress, frames: seq<Frame>, k: int)
    requires Wf(g) && 1 <= k <= |frames| && FrameOk(g, frames[0])
    ensures var t := Tick(g, p, frames[0]);
      Run(g, p, frames[..k]) == Run(t.0, t.1, frames[1..][..k - 1])
  {
    assert frames[..k][0] == frames[0] && frames[..k][1..] == frames[1..][..k - 1];
  }

  /**
    A run comes back empty exactly when some frame falls short of randomness
    after the frames before it ran; with enough randomness it always succeeds.
   */
  lemma {:induction false} RunStopsAtShortFrame(g: Game, p: Progress, frames: seq<Frame>)
    requires Wf(g)
    ensures Run(g, p, frames).None? <==> exists k :: FallsShortAt(g, p, frames, k)
    decreases |frames|
  {
    if |frames| == 0 {
      return;
    }
    assert Run(g, p, frames[..0]) == Some((g, p)) by { assert frames[..0] == []; }
    if !FrameOk(g, frames[0]) {
      assert FallsShortAt(g, p, frames, 0);
      return;
    }
    var t := Tick(g, p, frames[0]);
    var rest := frames[1..];
    assert Run(g, p, frames) == Run(t.0, t.1, rest);
    RunStopsAtShortFrame(t.0, t.1, rest);
    if Run(g, p, frames).None? {
      var j :| FallsShortAt(t.0, t.1, rest, j);
      ShortFrameLifts(g, p, frames, j);
    } else {
      forall k | FallsShortAt(g, p, frames, k)
        ensures false
      {
        if k != 0 {
          ShortFrameLowers(g, p, frames, k);
        }
      }
    }
  }

  /** A frame that falls short after the first frame falls short in the whole run. */
  lemma ShortFrameLifts(g: Game, p: Progress, frames: seq<Frame>, j: int)
    requires Wf(g) && |frames| >= 1 && FrameOk(g, frames[0])
    requires var t := Tick(g, p, frames[0]); FallsShortAt(t.0, t.1, frames[1..], j)
    ensures FallsShortAt(g, p, frames, j + 1)
  {
    RunUnfolds(g, p, frames, j + 1);
    assert frames[1..][j] == frames[j + 1];
  }

  /** Conversely, a later frame that falls short in the whole run falls short in the rest. */
  lemma ShortFrameLowers(g: Game, p: Progress, frames: seq<Frame>, k: int)
    requires Wf(g) && |frames| >= 1 && FrameOk(g, frames[0])
    requires k >= 1 && FallsShortAt(g, p, frames, k)
    ensures var t := Tick(g, p, frames[0]); FallsShortAt(t.0, t.1, frames[1..], k - 1)
  {
    RunUnfolds(g, p, frames, k);
    assert frames[1..][k - 1] == frames[k];
  }

  /**
    From a fresh session, however the game is played and restarted, the tick
    interval stays within 70..140 ms and the lifetime cheese counter has grown
    by at least the score; without restarts it has grown by exactly the score.
   */
  lemma RunFromReset(cols: int, rows: int, spawn: seq<Vec>, p: Progress, frames: seq<Frame>)
    requires cols >= 1 && rows >= 1
    requires SpawnOk(cols, rows, [Center(cols, rows)], spawn)
    ensures var r := Run(Reset(cols, rows, spawn), p, frames);
      r.Some? ==>
        && MinSpeedMs <= r.value.0.speedMs <= InitialSpeedMs
        && |r.value.0.body| == r.value.0.score + 1
        && r.value.1.totalCheeseEaten >= p.totalCheeseEaten + r.value.0.score
        && (NoRestart(frames) ==> r.value.1.totalCheeseEaten == p.totalCheeseEaten + r.value.0.score)
  {
    var r := Run(Reset(cols, rows, spawn), p, frames);
    if r.Some? {
      SpeedBounds(r.value.0.score);
    }
  }
}
