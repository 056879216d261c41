# WordScramble: the word-validation engine, modelled in Dafny

WordScramble is a one-screen word game. The player sees a root word (for
example "silkworm") and types words made from its letters. A submitted word is
normalised: it is lowercased and stripped of surrounding whitespace and
newlines. An empty answer is ignored. Otherwise the answer must pass three
checks, in this order:

1. it is not already in the list of accepted words;
2. it can be spelled from the letters of the root word, each letter used at
   most as often as the root word has it;
3. the spell checker knows it.

The first check that fails raises an alert with that check's title and
message. An answer that passes all three goes to the front of the list, and
the text field is cleared.

The project has three modules:

- `Text` (`text.dfy`): normalisation of the typed text. `Lowercased` is
  `lowercased()` on ASCII letters. `Trim` is
  `trimmingCharacters(in: .whitespacesAndNewlines)` over Foundation's
  whitespace-and-newline set. It finds the first kept position from the front
  (`SkipLeading`) and the last kept position from the back (`SkipTrailing`).
  `Normalize` is lowercasing followed by trimming.
- `Letters` (`letters.dfy`): the definition of "spellable from the root
  word" as multiset inclusion (`Spellable`). It also holds the two string
  operations that `isPossible` uses: `firstIndex(of:)` as `FirstIndexOf` and
  `remove(at:)` as `RemoveAt`.
- `WordScramble` (`game.dfy`): the screen's state as the class `Game`. Its
  fields are `usedWords`, `rootWord`, `newWord`, `errorTitle`, `errorMessage`
  and `showingError`. Its methods are `IsOriginal`, `IsPossible`, `WordError`
  and `AddNewWord`. The invariant `Valid()` (`AcceptedHistory`) says that every
  accepted word is non-empty, spellable from the root word and known to the
  spell checker, and that no word is accepted twice. `AddNewWord` preserves it.

The spell checker (`UITextChecker` asked about language "en") is the field
`isReal: string -> bool`, given to the constructor. The root word
is also a constructor argument. Everything else is as the source has it:
the order of the checks, the alert strings (the source's spelling
"Word not recongized" included), clearing `newWord` only on success, and
prepending the accepted word.

The code has no value that names the reason for a rejection: each failed
check writes the alert fields directly through `wordError`, and the model does
the same. Letters are Swift `Character`s (grapheme clusters) in the code and
Dafny `char`s (code points) here.

## Model

| member | source | states |
|---|---|---|
| `Text.Lowercased` | WordScramble/ContentView.swift:93 | the lowercased input has the same length, and each letter is the lowercase of the letter at that position |
| `Text.SkipLeading` | WordScramble/ContentView.swift:93 | from position `i`, the scan stops at the first character that is not whitespace, or at the end; everything it passes is whitespace |
| `Text.SkipTrailing` | WordScramble/ContentView.swift:93 | scanning back from `j` no further than `lo`, the scan stops just past the last character that is not whitespace, or at `lo`; everything it passes is whitespace |
| `Text.Trim` | WordScramble/ContentView.swift:93 | the result is `s[lo..hi]` for some `lo..hi` where everything outside it is whitespace, with no whitespace at either end of the result (this fixes the result) |
| `Text.TrimBlank` | WordScramble/ContentView.swift:93 | input made only of whitespace (the empty input included) trims to the empty string |
| `Text.TrimTrimmed` | WordScramble/ContentView.swift:93 | input with no whitespace at either end is returned unchanged |
| `Text.Normalize` | WordScramble/ContentView.swift:93 | the answer is never longer than the input, and it has whitespace at neither end |
| `Text.NormalizeSpec` | WordScramble/ContentView.swift:93 | the answer is the lowercased input cut to some `lo..hi` where everything outside `lo..hi` is whitespace; so only the surrounding whitespace is removed |
| `Text.NormalizeIdempotent` | WordScramble/ContentView.swift:93 | normalising an answer that is already normalised changes nothing |
| `Text.NormalizeNormal` | WordScramble/ContentView.swift:93 | a lower-case string with no whitespace at either end is its own normal form |
| `Text.NormalizeBlank` | WordScramble/ContentView.swift:93-97 | empty or whitespace-only input normalises to the empty answer, which `addNewWord` ignores |
| `Letters.FirstIndexOf` | WordScramble/ContentView.swift:74 | `None` exactly when the letter does not occur; otherwise an in-range position holding the letter, with no earlier occurrence |
| `Letters.RemoveAt` | WordScramble/ContentView.swift:76 | removing the letter at a position shortens the string by one and takes exactly one copy of that letter from its multiset |
| `Letters.SpellableStep` | WordScramble/ContentView.swift:72-79 | removing the first matching letter is exact: a word `c·w` is spellable from `t` iff `t` has a `c` and `w` is spellable from `t` with its first `c` removed |
| `Letters.SpellableExtremes` | WordScramble/ContentView.swift:68-82 | the empty word and the root word itself are always spellable |
| `Letters.WormsFromSilkworm` | WordScramble/ContentView.swift:57-82 | "worms" is spellable from the default root word "silkworm" |
| `Letters.SilkrFromSilkworm` | WordScramble/ContentView.swift:57-82 | "silkr" is spellable from "silkworm" (only the spell checker can reject it) |
| `Letters.SilkwormsNotFromSilkworm` | WordScramble/ContentView.swift:57-82 | "silkworms" is not spellable from "silkworm": it needs a second `s` |
| `WordScramble.ImpossibleMessage` | WordScramble/ContentView.swift:105 | the "not possible" message is the fixed text "You can't spell that word from " followed by the root word |
| `WordScramble.PrependAccepted` | WordScramble/ContentView.swift:97-115 | prepending a word keeps the history sound iff the word is non-empty, spellable, real and not already in the history, and the rest was sound; both directions are proved |
| `WordScramble.Game.constructor` | WordScramble/ContentView.swift:11-17 | a new game has the given root word and dictionary, an empty history, an empty text field and no alert, and satisfies the invariant |
| `WordScramble.Game.IsOriginal` | WordScramble/ContentView.swift:64-66 | true exactly when no entry of `usedWords` equals the word |
| `WordScramble.Game.IsPossible` | WordScramble/ContentView.swift:68-82 | the loop that removes the first matching letter from a copy of the root word returns true exactly when the word's letters form a sub-multiset of the root word's letters; it changes no state |
| `WordScramble.Game.WordError` | WordScramble/ContentView.swift:120-124 | the alert gets the given title and message and is shown; the frame is only the three alert fields |
| `WordScramble.Game.AddNewWord` | WordScramble/ContentView.swift:92-118 | an empty normalised answer changes nothing. Otherwise the first failing check (used, then not possible, then not real) sets exactly that alert and leaves `usedWords` and `newWord` alone. Success puts the answer in front of the old history, empties `newWord` and leaves the alert fields alone. `rootWord` never changes, and the history invariant is preserved |
| `WordScramble.SubmitTwice` | WordScramble/ContentView.swift:99-117 | submitting an admissible normalised word twice accepts it once (the history becomes `[word]`) and then reports "Word used already" |

## Left out

- The SwiftUI view tree, `.onSubmit`, `.onAppear`, the alert presentation and
  `withAnimation` (ContentView.swift:19-46, 114): user-interface plumbing. The
  text field's binding becomes a direct assignment to `newWord`.
- `startGame` (ContentView.swift:49-62): it reads a bundled file, picks a
  random line and calls `fatalError`. The root word is a constructor argument
  instead, and no method of the model changes it. `startGame` assigns only
  `rootWord`, and it is attached with `.onAppear` (ContentView.swift:39), which
  does not promise a single call. A second call would replace the root word
  and keep `usedWords`. The history invariant `AcceptedHistory` relies on the
  root word being fixed for the life of a `Game`, and would not survive such a
  call for words spelled from the old root.
- `isReal` (ContentView.swift:84-90): `UITextChecker` and `NSRange` are a
  platform service. The model takes the checker's verdict as the
  uninterpreted function `isReal`, fixed for the game.
- `Text.Lowercased`: lowercases only ASCII `A`..`Z`, not the full Unicode
  case mapping of Swift's `lowercased()`.
- `WordScramble.Game.IsOriginal`: compares words as sequences of code points,
  while Swift's `String ==` (behind `contains`) compares under Unicode
  canonical equivalence.
- `Letters.FirstIndexOf`: compares letters as code points, not as Swift
  `Character`s under canonical equivalence.
- `loadFile`, `testStrings`, `textCheck` and `ContentView_Previews`
  (ContentView.swift:128-175): example code with no effect. Nothing calls it.
