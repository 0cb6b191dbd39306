/**
  The persisted learning progress the game and the activities update
  (app.js, `defaultProgress`). Only the fields those updates touch are kept.
 */
module Learning {
  import opened Seqs

  /** One saved diary entry, newest first in the list. */
  datatype DiaryEntry = DiaryEntry(dateISO: string, text: string)

  datatype Progress = Progress(
    totalCheeseEaten: int,
    flashcardsReviewed: int,
    diaryEntries: seq<DiaryEntry>,
    learnedWords: seq<string>
  )

  const DefaultProgress := Progress(0, 0, [], [])

  /**
    Records `w` as learned: appended at the end when absent, the list left as it
    was when present, so a word is never recorded twice.
   */
  function Learn(learned: seq<string>, w: string): (r: seq<string>)
    ensures forall x :: x in r <==> x in learned || x == w
    ensures |learned| <= |r| <= |learned| + 1 && r[..|learned|] == learned
    ensures |r| == |learned| + 1 <==> w !in learned
    ensures Distinct(learned) ==> Distinct(r)
  {
    if w in learned then learned else learned + [w]
  }
}
