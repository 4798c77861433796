/** The type predicates of the `Esperanto` class and its `type` property (lib/Esperanto.py:75-86, 254-265). */
module Kinds {
  import opened Lexicon
  import opened Strings
  import Cleaning

  predicate IsEmpty(t: string)
  {
    t == ""
  }

  /** `text.find(" ") != -1`. */
  predicate IsSentence(t: string)
  {
    Find(t, " ") != -1
  }

  predicate IsWord(t: string)
  {
    Find(t, " ") == -1 && !IsEmpty(t)
  }

  /** `re.match("^[PUNCTUATION0-9 ]+$", text)`. */
  predicate IsNumber(t: string)
  {
    |t| > 0 && forall c :: c in t ==> c in Punctuation || Cleaning.IsDigit(c) || c == ' '
  }

  /** The `type` property: the first predicate that holds, in the order word, sentence, number, empty. */
  function TypeOf(t: string): string
  {
    if IsWord(t) then "word"
    else if IsSentence(t) then "sentence"
    else if IsNumber(t) then "number"
    else if IsEmpty(t) then "empty"
    else "special"
  }

  /** Searching for the space finds one exactly when the text holds one. */
  lemma FindSpace(t: string)
    ensures Find(t, " ") != -1 <==> ' ' in t
  {
    if ' ' in t {
      var j :| 0 <= j < |t| && t[j] == ' ';
      assert t[j..j + 1] == " ";
      assert OccursAt(t, " ", j);
    }
    if Find(t, " ") != -1 {
      var j := Find(t, " ");
      assert t[j..j + 1] == " ";
      assert t[j] in t;
    }
  }

  /** Word, sentence and empty partition all texts. */
  lemma Partition(t: string)
    ensures IsWord(t) <==> ' ' !in t && t != []
    ensures IsSentence(t) <==> ' ' in t
    ensures IsWord(t) || IsSentence(t) || IsEmpty(t)
    ensures !(IsWord(t) && IsSentence(t)) && !(IsWord(t) && IsEmpty(t)) && !(IsSentence(t) && IsEmpty(t))
  {
    FindSpace(t);
  }

  /** `type` is always "word", "sentence" or "empty": "number" and "special" cannot occur. */
  lemma TypeIsTotal(t: string)
    ensures TypeOf(t) == "word" <==> ' ' !in t && t != []
    ensures TypeOf(t) == "sentence" <==> ' ' in t
    ensures TypeOf(t) == "empty" <==> t == []
    ensures TypeOf(t) != "number" && TypeOf(t) != "special"
  {
    Partition(t);
  }

  /** A digit-only text passes the number test, yet its type is "word". */
  lemma DigitsAreWords(t: string)
    requires t != [] && forall c :: c in t ==> Cleaning.IsDigit(c)
    ensures IsNumber(t) && IsWord(t) && TypeOf(t) == "word"
  {
    Partition(t);
  }
}
