/**
 * The game state of the single WordScramble screen and the handler that
 * validates a submitted word: the root word, the accepted words (most recent
 * first), the text being typed and the alert to show.
 */
module WordScramble {
  import opened Text
  import opened Letters

  /** A word that may sit in the history: non-empty, spellable from the root
      word and recognised by the spell checker. */
  predicate Admissible(word: string, root: string, isReal: string -> bool) {
    |word| > 0 && Spellable(word, root) && isReal(word)
  }

  /** The history of accepted words: every entry admissible, no entry twice. */
  predicate AcceptedHistory(used: seq<string>, root: string, isReal: string -> bool) {
    && (forall i :: 0 <= i < |used| ==> Admissible(used[i], root, isReal))
    && (forall i, j :: 0 <= i < j < |used| ==> used[i] != used[j])
  }

  /** Prepending a word keeps the history sound exactly when the word is
      admissible, not already there, and the rest was sound. */
  lemma PrependAccepted(word: string, used: seq<string>, root: string, isReal: string -> bool)
    ensures AcceptedHistory([word] + used, root, isReal) <==>
              Admissible(word, root, isReal) && word !in used && AcceptedHistory(used, root, isReal)
  {
    var h := [word] + used;
    if AcceptedHistory(h, root, isReal) {
      assert Admissible(h[0], root, isReal);
      forall i | 0 <= i < |used|
        ensures Admissible(used[i], root, isReal) && used[i] != word
      {
        assert used[i] == h[i + 1];
      }
      forall i, j | 0 <= i < j < |used|
        ensures used[i] != used[j]
      {
        assert used[i] == h[i + 1] && used[j] == h[j + 1];
      }
    }
  }

  /** The alert titles and messages of `addNewWord`, spelled as in the app. */
  const USED_TITLE := "Word used already"
  const USED_MESSAGE := "Be more original"
  const IMPOSSIBLE_TITLE := "Word not possible"
  const UNKNOWN_TITLE := "Word not recongized"
  const UNKNOWN_MESSAGE := "You can't just make them up"

  const IMPOSSIBLE_PREFIX := "You can't spell that word from "

  /** The "not possible" message names the root word at its end. */
  function ImpossibleMessage(root: string): (m: string)
    ensures |m| == |IMPOSSIBLE_PREFIX| + |root|
    ensures m[..|IMPOSSIBLE_PREFIX|] == IMPOSSIBLE_PREFIX && m[|IMPOSSIBLE_PREFIX|..] == root
  {
    IMPOSSIBLE_PREFIX + root
  }

  class Game {
    var usedWords: seq<string>
    var rootWord: string
    var newWord: string
    var errorTitle: string
    var errorMessage: string
    var showingError: bool

    /** The spell checker's verdict on a word (`UITextChecker`, language "en"). */
    const isReal: string -> bool

    /** The invariant the handler keeps over the accepted words. */
    ghost predicate Valid()
      reads this
    {
      AcceptedHistory(usedWords, rootWord, isReal)
    }

    /** The alert currently raised carries `title` and `message`. */
    ghost predicate ShowsError(title: string, message: string)
      reads this
    {
      errorTitle == title && errorMessage == message && showingError
    }

    /** A game on the given root word, with nothing played yet. */
    constructor (rootWord: string, isReal: string -> bool)
      ensures this.rootWord == rootWord && this.isReal == isReal
      ensures usedWords == [] && newWord == ""
      ensures errorTitle == "" && errorMessage == "" && !showingError
      ensures Valid()
    {
      this.rootWord := rootWord;
      this.isReal := isReal;
      usedWords := [];
      newWord := "";
      errorTitle := "";
      errorMessage := "";
      showingError := false;
    }

    /** `isOriginal`: the word is none of the accepted words. */
    function IsOriginal(word: string): (r: bool)
      reads this
      ensures r <==> forall i :: 0 <= i < |usedWords| ==> usedWords[i] != word
    {
      word !in usedWords
    }

    /** `isPossible`: walks the word letter by letter, removing the first
        matching letter from a working copy of the root word, and fails on a
        letter the copy no longer has. The answer is multiset inclusion. */
    method IsPossible(word: string) returns (r: bool)
      ensures r <==> Spellable(word, rootWord)
    {
      var tempWord := rootWord;
      var i := 0;
      while i < |word|
        invariant 0 <= i <= |word|
        invariant Spellable(word[i..], tempWord) <==> Spellable(word, rootWord)
      {
        var letter := word[i];
        assert word[i..] == [letter] + word[i + 1..];
        SpellableStep(letter, word[i + 1..], tempWord);
        var pos := FirstIndexOf(tempWord, letter);
        if pos.Some? {
          tempWord := RemoveAt(tempWord, pos.value);
        } else {
          return false;
        }
        i := i + 1;
      }
      assert word[i..] == [];
      return true;
    }

    /** `wordError`: raises the alert with the given title and message. */
    method WordError(title: string, message: string)
      modifies this`errorTitle, this`errorMessage, this`showingError
      ensures ShowsError(title, message)
    {
      errorTitle := title;
      errorMessage := message;
      showingError := true;
    }

    /** `addNewWord`: normalises the typed text, ignores an empty answer, then
        tries the checks original, possible, real in that order, and reports
        the first that fails; an answer that passes all three goes to the
        front of the history and the text field is cleared. */
    method AddNewWord()
      modifies this`usedWords, this`newWord, this`errorTitle, this`errorMessage, this`showingError
      ensures rootWord == old(rootWord)
      ensures old(Valid()) ==> Valid()
      ensures var answer := Normalize(old(newWord));
        if answer == [] then
          && usedWords == old(usedWords) && newWord == old(newWord)
          && errorTitle == old(errorTitle) && errorMessage == old(errorMessage)
          && showingError == old(showingError)
        else if answer in old(usedWords) then
          usedWords == old(usedWords) && newWord == old(newWord) && ShowsError(USED_TITLE, USED_MESSAGE)
        else if !Spellable(answer, rootWord) then
          && usedWords == old(usedWords) && newWord == old(newWord)
          && ShowsError(IMPOSSIBLE_TITLE, ImpossibleMessage(rootWord))
        else if !isReal(answer) then
          usedWords == old(usedWords) && newWord == old(newWord) && ShowsError(UNKNOWN_TITLE, UNKNOWN_MESSAGE)
        else
          && usedWords == [answer] + old(usedWords) && newWord == ""
          && errorTitle == old(errorTitle) && errorMessage == old(errorMessage)
          && showingError == old(showingError)
    {
      var answer := Normalize(newWord);
      if |answer| == 0 {
        return;
      }
      if !IsOriginal(answer) {
        WordError(USED_TITLE, USED_MESSAGE);
        return;
      }
      var possible := IsPossible(answer);
      if !possible {
        WordError(IMPOSSIBLE_TITLE, ImpossibleMessage(rootWord));
        return;
      }
      if !isReal(answer) {
        WordError(UNKNOWN_TITLE, UNKNOWN_MESSAGE);
        return;
      }
      PrependAccepted(answer, usedWords, rootWord, isReal);
      usedWords := [answer] + usedWords;
      newWord := "";
    }
  }

  /** A round of two submissions of the same admissible word: the first is
      accepted and clears the text field, the second (typed again) is
      reported as already used and leaves the history alone. */
  method SubmitTwice(root: string, word: string, isReal: string -> bool) returns (g: Game)
    requires Normalize(word) == word && Admissible(word, root, isReal)
    ensures g.rootWord == root && g.Valid()
    ensures g.usedWords == [word] && g.newWord == word
    ensures g.ShowsError(USED_TITLE, USED_MESSAGE)
  {
    g := new Game(root, isReal);
    g.newWord := word;
    assert Normalize(g.newWord) == word != [] && word !in g.usedWords;
    assert Spellable(word, g.rootWord) && g.isReal(word);
    g.AddNewWord();
    assert g.usedWords == [word] && g.newWord == "";
    g.newWord := word;
    assert Normalize(g.newWord) == word != [] && word in g.usedWords;
    g.AddNewWord();
  }
}
