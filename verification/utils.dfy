/** The article helper of utils.py. */
module Utils {

  import Text

  /** The character class `[aeiou]` matched with `re.IGNORECASE` (ASCII only on byte strings). */
  predicate IsVowel(c: char) {
    c in "aeiouAEIOU"
  }

  /** `re.match(r'[aeiou]', word, re.IGNORECASE)` succeeds: the match is anchored
      at the start and consumes exactly one character. */
  predicate StartsWithVowel(word: string) {
    |word| > 0 && IsVowel(word[0])
  }

  /** `a_or_an(word)`: the word preceded by its indefinite article and one space. */
  function AOrAn(word: string): (r: string)
    ensures |r| > |word| && r[|r| - |word|..] == word
    ensures r[..|r| - |word|] == "an " || r[..|r| - |word|] == "a "
    ensures r[..|r| - |word|] == "an " <==> StartsWithVowel(word)
  {
    if StartsWithVowel(word) then "an " + word else "a " + word
  }

  /** The article is the prefix in front of the unchanged word. */
  function Article(word: string): (a: string)
    ensures a + word == AOrAn(word)
  {
    var r := AOrAn(word);
    r[..|r| - |word|]
  }

  /** Only the first character decides the article. */
  lemma FirstCharacterDecides(u: string, v: string)
    requires |u| > 0 && |v| > 0 && u[0] == v[0]
    ensures Article(u) == Article(v)
  {
  }

  /** Upper- and lower-case vowels choose the same article. */
  lemma ArticleIgnoresCase(word: string)
    ensures Article(Text.Lower(word)) == Article(word)
  {
    if |word| > 0 {
      VowelIgnoresCase(word[0]);
      assert Text.Lower(word)[0] == Text.LowerChar(word[0]);
    }
    assert StartsWithVowel(Text.Lower(word)) == StartsWithVowel(word);
  }

  lemma VowelIgnoresCase(c: char)
    ensures IsVowel(Text.LowerChar(c)) == IsVowel(c)
  {
  }

  /** The two words `test_a_or_an` in test_utils.py checks. */
  lemma AOrAnExamples()
    ensures AOrAn("ottle") == "an ottle"
    ensures AOrAn("bottle") == "a bottle"
  {
    assert StartsWithVowel("ottle");
    assert !StartsWithVowel("bottle");
  }

  /** An upper-case vowel takes "an"; the empty word, 'y' and a leading digit take "a". */
  lemma AOrAnEdgeCases()
    ensures Article("Egg") == "an "
    ensures Article("") == "a "
    ensures Article("yak") == "a "
    ensures Article("8ball") == "a "
  {
    assert StartsWithVowel("Egg");
    assert !StartsWithVowel("yak");
    assert !StartsWithVowel("8ball");
  }
}
