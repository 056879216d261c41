/**
 * Spelling a candidate from the letters of the root word: the pure
 * specification (multiset inclusion) and the two sequence operations the
 * check is built from, `firstIndex(of:)` and `remove(at:)`.
 */
module Letters {

  datatype Option<T> = None | Some(value: T)

  /** `word` can be spelled from `root`: each letter is used at most as often
      as `root` has it, in any order, and letters may be left over. */
  predicate Spellable(word: string, root: string) {
    multiset(word) <= multiset(root)
  }

  /** `firstIndex(of:)`: the position of the first occurrence of `c`. */
  function FirstIndexOf(s: string, c: char): (r: Option<nat>)
    ensures r.None? <==> c !in s
    ensures r.Some? ==> r.value < |s| && s[r.value] == c
    ensures r.Some? ==> forall j :: 0 <= j < r.value ==> s[j] != c
  {
    if s == [] then None
    else if s[0] == c then Some(0)
    else match FirstIndexOf(s[1..], c)
      case None => None
      case Some(k) => Some(k + 1)
  }

  /** `remove(at:)`: the string without the letter at `pos`; exactly one copy
      of that letter leaves the multiset of letters. */
  function RemoveAt(s: string, pos: nat): (r: string)
    requires pos < |s|
    ensures |r| == |s| - 1
    ensures multiset(r) == multiset(s) - multiset{s[pos]}
  {
    assert s == s[..pos] + [s[pos]] + s[pos + 1..];
    s[..pos] + s[pos + 1..]
  }

  /** The greedy step of `isPossible` is exact: a word starting with `c` is
      spellable from `t` precisely when `t` has a `c` and the rest of the word
      is spellable from `t` with its first `c` removed. */
  lemma SpellableStep(c: char, w: string, t: string)
    ensures Spellable([c] + w, t) <==>
              match FirstIndexOf(t, c)
              case None => false
              case Some(p) => Spellable(w, RemoveAt(t, p))
  {
    var m := multiset([c] + w);
    assert m == multiset(w) + multiset{c};
    match FirstIndexOf(t, c)
    case None =>
      assert multiset(t)[c] == 0;
      assert m[c] > 0;
    case Some(p) =>
      var u := RemoveAt(t, p);
      assert multiset(u) == multiset(t) - multiset{c};
      if Spellable(w, u) {
        assert multiset(t) == multiset(u) + multiset{c};
      }
      if Spellable([c] + w, t) {
        forall x
          ensures multiset(w)[x] <= multiset(u)[x]
        {
          if x == c {
            assert m[x] == multiset(w)[x] + 1;
          } else {
            assert m[x] == multiset(w)[x];
          }
        }
      }
  }

  /** The empty word and the root word itself are always spellable. */
  lemma SpellableExtremes(root: string)
    ensures Spellable([], root)
    ensures Spellable(root, root)
  {
  }

  /** Worked case on the default root word "silkworm": "worms" uses five of
      its letters once each. */
  lemma WormsFromSilkworm()
    ensures Spellable("worms", "silkworm")
  {
  }

  /** "silkr" is spellable from "silkworm" (it is rejected later, as not a
      real word). */
  lemma SilkrFromSilkworm()
    ensures Spellable("silkr", "silkworm")
  {
  }

  /** "silkworms" needs a second `s` that "silkworm" does not have. */
  lemma SilkwormsNotFromSilkworm()
    ensures !Spellable("silkworms", "silkworm")
  {
  }
}
