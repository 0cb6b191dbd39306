/** The A1 word bank the game and the flashcards draw from (app.js, `WORDS`). */
module Vocabulary {

  /** A German word or phrase with its English meaning. */
  datatype Word = Word(de: string, en: string)

  const Words: seq<Word> := [
    Word("Hallo", "Hello"),
    Word("Danke", "Thank you"),
    Word("Bitte", "Please/You are welcome"),
    Word("Ja", "Yes"),
    Word("Nein", "No"),
    Word("Guten Morgen", "Good morning"),
    Word("Gute Nacht", "Good night"),
    Word("Tschüss", "Bye"),
    Word("Wie geht’s?", "How are you?"),
    Word("Ich heiße SKY", "My name is SKY"),
    Word("Ich", "I"),
    Word("Du", "You"),
    Word("Er", "He"),
    Word("Sie", "She/They"),
    Word("Wir", "We"),
    Word("Es", "It"),
    Word("Haus", "House"),
    Word("Wasser", "Water"),
    Word("Brot", "Bread"),
    Word("Milch", "Milk"),
    Word("Kaffee", "Coffee"),
    Word("Tee", "Tea"),
    Word("Apfel", "Apple"),
    Word("Käse", "Cheese"),
    Word("Katze", "Cat"),
    Word("Hund", "Dog"),
    Word("Buch", "Book"),
    Word("Schule", "School"),
    Word("Lehrer", "Teacher"),
    Word("Student", "Student"),
    Word("Fußball", "Football"),
    Word("Auto", "Car"),
    Word("Zug", "Train"),
    Word("Straße", "Street"),
    Word("Stadt", "City"),
    Word("Freund", "Friend"),
    Word("Familie", "Family"),
    Word("Essen", "Food"),
    Word("Trinken", "Drink"),
    Word("Lernen", "Learn"),
    Word("Sprechen", "Speak")
  ]

  /** The word a uniform draw `i` in `[0, |Words|)` selects, as `randomWord` does. */
  function WordAt(i: nat): (w: Word)
    requires i < |Words|
    ensures w in Words
  {
    Words[i]
  }
}
