/**
  Flashcard paging and the "Speak" button (app.js, `flashcards`): the card
  index steps forward and back through the word bank with wrap-around.
 */
module Flashcards {
  import opened Seqs
  import opened Vocabulary
  import opened Learning

  /**
    JavaScript's `%` by a positive modulus: the remainder of division truncated
    toward zero, so it carries the sign of `a`.
   */
  function JsRem(a: int, n: int): (r: int)
    requires n > 0
    ensures a >= 0 ==> 0 <= r < n
    ensures a < 0 ==> -n < r <= 0
    ensures (a - r) % n == 0
  {
    if a >= 0 then
      GapIsMultiple(a, n);
      a % n
    else
      GapIsMultiple(-a, n);
      assert a - -((-a) % n) == -((-a) - (-a) % n);
      MultipleRem(n, -((-a) / n));
      -((-a) % n)
  }

  /** Taking the remainder off leaves a multiple of `n`. */
  lemma GapIsMultiple(b: int, n: int)
    requires n > 0
    ensures b - b % n == n * (b / n)
    ensures (b - b % n) % n == 0
  {
    var q := b / n;
    MultipleRem(n, q);
  }

  /** A multiple of `n` leaves no remainder. */
  lemma MultipleRem(n: int, k: int)
    requires n > 0
    ensures (n * k) % n == 0
  {
    var q := (n * k) / n;
    var r := (n * k) % n;
    var d := k - q;
    assert n * k == n * q + r;
    assert r == n * d;
    if d > 0 {
      PositiveMultiple(n, d);
    } else if d < 0 {
      PositiveMultiple(n, -d);
    }
  }

  lemma {:induction false} PositiveMultiple(n: int, d: int)
    requires n > 0 && d > 0
    ensures n * d >= n
  {
    if d > 1 {
      PositiveMultiple(n, d - 1);
      assert n * d == n * (d - 1) + n;
    }
  }

  /** The "Next ▶" button. */
  function NextCard(i: int): int {
    JsRem(i + 1, |Words|)
  }

  /** The "Prev ◀" button. */
  function PrevCard(i: int): int {
    JsRem(i - 1 + |Words|, |Words|)
  }

  /**
    On a valid card index the two buttons stay on the word bank, undo each
    other, and step to the neighbouring card, wrapping at both ends.
   */
  lemma PagingWraps(i: int)
    requires 0 <= i < |Words|
    ensures 0 <= NextCard(i) < |Words| && 0 <= PrevCard(i) < |Words|
    ensures PrevCard(NextCard(i)) == i && NextCard(PrevCard(i)) == i
    ensures NextCard(i) == (if i == |Words| - 1 then 0 else i + 1)
    ensures PrevCard(i) == (if i == 0 then |Words| - 1 else i - 1)
  {
    assert |Words| == 41;
  }

  /**
    The "Speak 🔊" button on card `flashIndex`: the card's word is recorded as
    learned (once) and one more review is counted.
   */
  function SpeakCard(p: Progress, flashIndex: int): (r: Progress)
    requires flashIndex >= 0
    ensures r.learnedWords == Learn(p.learnedWords, Words[flashIndex % |Words|].de)
    ensures var w := Words[flashIndex % |Words|].de;
      w in r.learnedWords && (forall x :: x in r.learnedWords <==> x in p.learnedWords || x == w)
    ensures Distinct(p.learnedWords) ==> Distinct(r.learnedWords)
    ensures r.flashcardsReviewed == p.flashcardsReviewed + 1
    ensures r.totalCheeseEaten == p.totalCheeseEaten && r.diaryEntries == p.diaryEntries
  {
    var card := Words[JsRem(flashIndex, |Words|)];
    p.(learnedWords := Learn(p.learnedWords, card.de), flashcardsReviewed := p.flashcardsReviewed + 1)
  }
}
