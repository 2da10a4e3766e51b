/** Round setup in `AnagramGame` (anagram_bot.py): the shuffle that hides the
    word (`word_shuffle`) and the two progressive hints (`generate_hints`). */
module Hints {
  import opened Common

  /** What `word_shuffle` waits for: a rearrangement of the word's letters
      that is neither the word itself nor another accepted answer. */
  predicate Acceptable(word: string, s: string, otherWords: set<string>) {
    multiset(s) == multiset(word) && s != word && s !in otherWords
  }

  /** `word_shuffle`. `draws` are the successive arrangements produced by
      `random.shuffle`, each a rearrangement of the word's letters. The source
      shuffles until an acceptable arrangement comes up; when the draws run
      out first, the model answers `None`. */
  method WordShuffle(word: string, otherWords: set<string>, draws: seq<string>) returns (r: Option<string>)
    requires forall k :: 0 <= k < |draws| ==> multiset(draws[k]) == multiset(word)
    ensures r.Some? ==> Acceptable(word, r.value, otherWords)
    ensures r.Some? ==> exists k :: 0 <= k < |draws| && draws[k] == r.value
                          && forall j :: 0 <= j < k ==> !Acceptable(word, draws[j], otherWords)
    ensures r.None? <==> forall k :: 0 <= k < |draws| ==> !Acceptable(word, draws[k], otherWords)
  {
    var letters := word;
    var k := 0;
    while letters == word || letters in otherWords
      invariant 0 <= k <= |draws|
      invariant multiset(letters) == multiset(word)
      invariant k == 0 ==> letters == word
      invariant k > 0 ==> letters == draws[k - 1]
      invariant forall j :: 0 <= j < k - 1 ==> !Acceptable(word, draws[j], otherWords)
      decreases |draws| - k
    {
      if k == |draws| {
        return None;
      }
      letters := draws[k];
      k := k + 1;
    }
    return Some(letters);
  }

  /** A word whose letters are all the same (a one-letter word among them)
      has no acceptable arrangement, so `word_shuffle` never returns for it. */
  lemma NoShuffleForRepeatedLetter(word: string, otherWords: set<string>, s: string)
    requires forall i :: 0 <= i < |word| ==> word[i] == word[0]
    ensures !Acceptable(word, s, otherWords)
  {
    if multiset(s) == multiset(word) {
      assert |s| == |multiset(s)| == |multiset(word)| == |word|;
      forall i | 0 <= i < |s|
        ensures s[i] == word[i]
      {
        assert s[i] in multiset(s);
        assert s[i] in multiset(word);
        var j :| 0 <= j < |word| && word[j] == s[i];
      }
      assert s == word;
    }
  }

  /** `list.remove(c)` on the characters of `s`: the first occurrence of
      `c` is taken out (see `RemoveFirstAtFirstOccurrence`). */
  function RemoveFirst(s: string, c: char): (r: string)
    requires c in s
    ensures |r| == |s| - 1
    ensures multiset(r) == multiset(s) - multiset{c}
  {
    assert s == [s[0]] + s[1..];
    if s[0] == c then s[1..]
    else
      assert c in s[1..];
      [s[0]] + RemoveFirst(s[1..], c)
  }

  /** `r` is `s` with its character at `i`, the first `c`, taken out. */
  predicate RemovedAt(s: string, c: char, r: string, i: int) {
    0 <= i < |s| && s[i] == c && c !in s[..i] && r == s[..i] + s[i + 1..]
  }

  /** The character removed is the first `c`, and the others keep their
      order. */
  lemma {:induction false} RemoveFirstAtFirstOccurrence(s: string, c: char)
    requires c in s
    ensures exists i :: RemovedAt(s, c, RemoveFirst(s, c), i)
    decreases |s|
  {
    if s[0] == c {
      assert s[..0] == [] && RemoveFirst(s, c) == s[0 + 1..];
      assert RemovedAt(s, c, RemoveFirst(s, c), 0);
    } else {
      assert s == [s[0]] + s[1..];
      var t := s[1..];
      assert c in t;
      RemoveFirstAtFirstOccurrence(t, c);
      var i :| RemovedAt(t, c, RemoveFirst(t, c), i);
      ShiftRemoved(s, c, RemoveFirst(t, c), RemoveFirst(s, c), i);
    }
  }

  lemma ShiftRemoved(s: string, c: char, rest: string, r: string, i: int)
    requires s != [] && s[0] != c && RemovedAt(s[1..], c, rest, i)
    requires r == [s[0]] + rest
    ensures RemovedAt(s, c, r, i + 1)
  {
    var t := s[1..];
    assert s[i + 1] == t[i];
    assert s[..i + 1] == [s[0]] + t[..i];
    assert s[i + 2..] == t[i + 1..];
    assert r == s[..i + 1] + s[i + 2..];
  }

  /** `f"**{c}**"` */
  function Bold(c: char): string {
    "**" + [c] + "**"
  }

  datatype HintPair = HintPair(first: string, second: string)

  /** `generate_hints(word, anagram)`: the first hint puts the word's first
      letter, bolded, in front of the anagram with one copy of that letter
      taken out; the second takes one copy of the last letter out of the
      first hint's characters and appends it, bolded. */
  function GenerateHints(word: string, anagram: string): (h: HintPair)
    requires |word| > 0 && word[0] in anagram && word[|word| - 1] in anagram
    ensures |h.first| == |anagram| + 4
    ensures |h.second| == |anagram| + 8
    ensures h.first[..5] == Bold(word[0])
    ensures multiset(h.first[5..]) == multiset(anagram) - multiset{word[0]}
    ensures h.second[|h.second| - 5..] == Bold(word[|word| - 1])
    ensures multiset(h.second) == multiset(h.first) - multiset{word[|word| - 1]} + multiset(Bold(word[|word| - 1]))
    ensures h.first == Bold(word[0]) + RemoveFirst(anagram, word[0])
    ensures word[|word| - 1] in h.first
    ensures h.second == RemoveFirst(h.first, word[|word| - 1]) + Bold(word[|word| - 1])
  {
    var first := Bold(word[0]) + RemoveFirst(anagram, word[0]);
    assert first[2] == word[0];
    var last := word[|word| - 1];
    assert last in first by {
      if last != word[0] {
        assert last in RemoveFirst(anagram, word[0]) by {
          assert last in multiset(anagram) - multiset{word[0]};
        }
      }
    }
    HintPair(first, RemoveFirst(first, last) + Bold(last))
  }

  /** When the word starts and ends with different letters (and its last
      letter is not an asterisk), the second hint keeps the bolded first
      letter and takes the last letter out of the anagram part. */
  lemma HintsWhenEndsDiffer(word: string, anagram: string)
    requires |word| > 0 && word[0] in anagram && word[|word| - 1] in anagram
    requires word[0] != word[|word| - 1] && word[|word| - 1] != '*'
    ensures var rest := RemoveFirst(anagram, word[0]);
            word[|word| - 1] in rest
            && GenerateHints(word, anagram).second
               == Bold(word[0]) + RemoveFirst(rest, word[|word| - 1]) + Bold(word[|word| - 1])
  {
    var first, last := word[0], word[|word| - 1];
    var rest := RemoveFirst(anagram, first);
    assert last in rest by {
      assert last in multiset(anagram) - multiset{first};
    }
    assert last !in Bold(first);
    RemoveAfterPrefix(Bold(first), rest, last);
  }

  /** Removing a character the prefix does not hold leaves the prefix in
      place. */
  lemma {:induction false} RemoveAfterPrefix(b: string, s: string, c: char)
    requires c !in b && c in s
    ensures RemoveFirst(b + s, c) == b + RemoveFirst(s, c)
    decreases |b|
  {
    if b == [] {
      assert b + s == s;
    } else {
      assert (b + s)[0] == b[0] && (b + s)[1..] == b[1..] + s;
      RemoveAfterPrefix(b[1..], s, c);
    }
  }

  /** When the word starts and ends with the same letter, the removal for the
      second hint hits the bolded letter of the first hint, leaving `****`
      in front. */
  lemma HintsWhenEndsMatch(word: string, anagram: string)
    requires |word| > 0 && word[0] in anagram
    requires word[0] == word[|word| - 1] && word[0] != '*'
    ensures GenerateHints(word, anagram).second
            == "****" + RemoveFirst(anagram, word[0]) + Bold(word[0])
  {
    var w := word[0];
    var rest := RemoveFirst(anagram, w);
    var tail := [w] + ("**" + rest);
    assert Bold(w) + rest == "**" + tail;
    assert RemoveFirst(tail, w) == "**" + rest by {
      assert tail[0] == w && tail[1..] == "**" + rest;
    }
    assert w !in "**";
    RemoveAfterPrefix("**", tail, w);
    var h := GenerateHints(word, anagram);
    assert h.first == "**" + tail;
    assert h.second == RemoveFirst(h.first, w) + Bold(w);
    FourStars(rest);
  }

  lemma FourStars(s: string)
    ensures "**" + ("**" + s) == "****" + s
  {
    assert "**" + "**" == "****";
  }
}
