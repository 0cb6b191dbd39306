/** Concrete sessions that pin the tick down on small boards. */
module Scenarios {
  import opened Optional
  import opened Grid
  import opened Vocabulary
  import opened Learning
  import opened MausGame
  import opened Session

  /**
    A one-cell mouse at (5,5) heading right onto cheese at (6,5): it grows to
    two cells, scores, speeds up by 4 ms, and the cheese respawns at the first
    draw off the body (here the third: the first two land on the mouse).
   */
  lemma EatOnTenByTen()
    ensures var g := Game(10, 10, [Vec(5, 5)], Right, Right, Vec(6, 5), 0.0, 140, true, 0, None);
      var draws := [Vec(6, 5), Vec(5, 5), Vec(0, 0)];
      assert draws[2] !in [Vec(6, 5)] + g.body;
      var r := Step(g, DefaultProgress, 140.0, draws, 23);
      && r.0.body == [Vec(6, 5), Vec(5, 5)]
      && r.0.cheese == Vec(0, 0)
      && r.0.score == 1 && r.0.speedMs == 136
      && r.0.currentWord == Some(Word("Käse", "Cheese"))
      && r.1.totalCheeseEaten == 1 && r.1.learnedWords == ["Käse"]
  {
  }

  /** Heading left from column 0 wraps to column 9; the tail cell (2,5) is vacated. */
  lemma WrapLeftShifts()
    ensures var g := Game(10, 10, [Vec(0, 5), Vec(1, 5), Vec(2, 5)], Left, Left, Vec(7, 7), 0.0, 140, true, 0, None);
      var r := Step(g, DefaultProgress, 500.0, [], 0);
      r.0.body == [Vec(9, 5), Vec(0, 5), Vec(1, 5)] && r.0.alive
  {
  }

  /**
    The collision check counts the tail even though a non-eating move would
    vacate it: a square mouse turning into its own tail crashes.
   */
  lemma TailCellCountsAsOccupied()
    ensures var g := Game(10, 10, [Vec(1, 1), Vec(1, 2), Vec(2, 2), Vec(2, 1)], Up, Right, Vec(7, 7), 0.0, 140, true, 3, None);
      var r := Step(g, DefaultProgress, 140.0, [], 0);
      !r.0.alive && r.0.body == g.body && r.0.score == 3
  {
  }

  /** A tick that comes less than `speedMs` after the last one changes nothing. */
  lemma TooEarlyIsIgnored()
    ensures var g := Game(10, 10, [Vec(4, 4)], Right, Up, Vec(7, 7), 1000.0, 140, true, 0, None);
      Step(g, DefaultProgress, 1139.5, [], 0) == (g, DefaultProgress)
  {
  }

  /** Holding Left while heading right buffers nothing; holding Left and Down buffers Down. */
  lemma NoReversal()
    ensures var g := Game(10, 10, [Vec(4, 4)], Right, Right, Vec(7, 7), 0.0, 140, true, 0, None);
      && HandleInput(g, Keys(false, false, true, false)).nextDir == Right
      && HandleInput(g, Keys(false, true, true, false)).nextDir == Down
  {
  }

  /**
    A frame whose tick crashes the square mouse and whose Restart button is
    clicked ends with a fresh one-cell mouse in the middle of the board, whose
    size is re-derived from the (here resized) window.
   */
  lemma CrashThenRestart()
    ensures var g := Game(10, 10, [Vec(1, 1), Vec(1, 2), Vec(2, 2), Vec(2, 1)], Up, Right, Vec(7, 7), 0.0, 140, true, 3, None);
      var f := Frame(140.0, Keys(false, false, false, false), [Vec(0, 0)], 0, true, 12, 8);
      assert [Vec(0, 0)][0] !in [Center(12, 8)];
      var r := Tick(g, DefaultProgress, f);
      && r.0.cols == 12 && r.0.rows == 8
      && r.0.body == [Vec(6, 4)] && r.0.alive && r.0.score == 0 && r.0.speedMs == 140
      && r.0.cheese == Vec(0, 0) && r.1 == DefaultProgress
  {
  }

  /**
    A Restart on a window that has grown from a 10×10 to a 30×30 board draws
    the fresh cheese over the new board, here off the old one.
   */
  lemma RestartOntoWiderBoard()
    ensures var g := Game(10, 10, [Vec(1, 1), Vec(1, 2), Vec(2, 2), Vec(2, 1)], Up, Right, Vec(7, 7), 0.0, 140, true, 3, None);
      var f := Frame(140.0, Keys(false, false, false, false), [Vec(25, 25)], 0, true, 30, 30);
      assert [Vec(25, 25)][0] !in [Center(30, 30)];
      var r := Tick(g, DefaultProgress, f);
      && r.0.cols == 30 && r.0.rows == 30
      && r.0.body == [Vec(15, 15)] && r.0.cheese == Vec(25, 25) && r.0.alive
  {
  }
}
