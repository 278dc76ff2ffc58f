/** indexer/firstletter.py: the index letter of a verb form, its first
    character lower-cased with the Catalan accents folded away. */
module FirstLetter {
  import opened Strings
  import opened Wrappers

  /** The accent mapping of `from_word`; every other character is kept. */
  function Unaccented(c: char): char {
    if c == 'à' then 'a'
    else if c == 'è' || c == 'é' then 'e'
    else if c == 'í' then 'i'
    else if c == 'ó' || c == 'ò' then 'o'
    else if c == 'ú' then 'u'
    else c
  }

  /** `from_word`: nothing for a missing or empty word, else the first
      character lower-cased and then unaccented. */
  function FromWord(word: Option<string>): (r: string)
    ensures word.None? || word.value == [] ==> r == []
    ensures word.Some? && word.value != [] ==> |r| == 1
  {
    if word.None? || |word.value| == 0 then ""
    else [Unaccented(LowerChar(word.value[0]))]
  }

  /** `get_letters`: the letters the index accepts, 'a' to 'z'. */
  function GetLetters(): (r: seq<string>)
    ensures |r| == 26
    ensures forall k :: 0 <= k < 26 ==> r[k] == [(97 + k) as char]
  {
    seq(26, k requires 0 <= k < 26 => [(97 + k) as char])
  }

  /** The accepted letters are exactly the one-character strings 'a' to 'z',
      each once and in alphabetical order. */
  lemma LettersExactly(s: string)
    ensures s in GetLetters() <==> |s| == 1 && 'a' <= s[0] <= 'z'
    ensures forall i, j :: 0 <= i < j < 26 ==> GetLetters()[i][0] < GetLetters()[j][0]
  {
    var letters := GetLetters();
    if |s| == 1 && 'a' <= s[0] <= 'z' {
      var k := s[0] as int - 97;
      assert letters[k] == [(97 + k) as char] == s;
    }
  }

  /** The index letter of a non-empty word is in the accepted letters exactly
      when the word starts with an ASCII letter of either case or with one
      of the accented vowels à, è, é, í, ó, ò, ú or their capitals; so a word
      starting with 'ç' gets the letter "ç", which is not accepted. */
  lemma FromWordAccepted(w: string)
    requires w != []
    ensures FromWord(Some(w)) in GetLetters() <==>
              ('a' <= w[0] <= 'z') || ('A' <= w[0] <= 'Z') ||
              w[0] in "àèéíóòúÀÈÉÍÓÒÚ"
  {
    LettersExactly(FromWord(Some(w)));
    var c := w[0];
    if c in "àèéíóòúÀÈÉÍÓÒÚ" {
      assert c in {'à', 'è', 'é', 'í', 'ó', 'ò', 'ú', 'À', 'È', 'É', 'Í', 'Ó', 'Ò', 'Ú'};
    }
  }

  /** Only the seven accented vowels are mapped. */
  lemma UnaccentedOnlyVowels(c: char)
    ensures Unaccented(c) != c <==> c in "àèéíóòú"
  {
    if c in "àèéíóòú" {
      assert c in {'à', 'è', 'é', 'í', 'ó', 'ò', 'ú'};
    }
  }
}
