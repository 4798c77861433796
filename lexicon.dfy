/**
 * The constant lexicon tables of the `Esperanto` class (lib/Esperanto.py:6-58).
 * Table order is part of the vector layout: entry i of an affix table owns one
 * bit of the vector and one description label.
 */
module Lexicon {

  /** Letters a cleaned text may keep, besides digits and the space. */
  const Alphabet: string := "abcĉdefgĝhĥijĵklmnoprsŝtuŭvz"

  /** Characters that the number test accepts besides digits and space. */
  const Punctuation: string := "-–\"',.:;?!()"

  /** Grammatical endings: noun, adjective, adverb, infinitive, then the verb tenses and moods. */
  const Endings: seq<string> := ["o", "a", "e", "i", "as", "is", "os", "us", "u"]

  /** The prefix table as the source lists it; the class uses it reversed. */
  const PrefixesAsWritten: seq<string> := ["bo", "dis", "ek", "eks", "fi", "ge", "mal", "mis", "pra", "re"]

  const Prefixes: seq<string> := Reversed(PrefixesAsWritten)

  /**
   * The suffix table as the source lists it, over its two source lines; the
   * class uses it reversed. Each line is its own display so that a proof can
   * look up single entries.
   */
  const SuffixesAsWritten: seq<string> := SuffixesFirstLine + SuffixesSecondLine

  const SuffixesFirstLine: seq<string> :=
    ["ac", "aĉ", "ad", "aĵ", "al", "an", "ant", "ar", "at", "ĉj", "ebl", "ec", "ed", "eg", "ej", "em", "end",
     "er", "esk", "estr", "et", "i", "iĉ", "id", "ig"]

  const SuffixesSecondLine: seq<string> :=
    ["iĝ", "ik", "il", "in", "ind", "ing", "int", "ism", "ist", "it", "iv", "iz", "nj", "obl", "ol", "on",
     "ont", "op", "ot", "oz", "uj", "uk", "ul", "um", "unt", "ut"]

  const Suffixes: seq<string> := Reversed(SuffixesAsWritten)

  const Prepositions: seq<string> :=
    ["al", "anstataŭ", "antaŭ", "apud", "ĉe", "ĉirkaŭ", "da", "de", "dum", "ekster", "el", "en", "ĝis",
     "inter", "je", "kontraŭ", "krom", "kun", "laŭ", "malgraŭ", "per", "po", "por", "post", "preter", "pri",
     "pro", "sen", "sub", "super", "sur", "tra", "trans"]

  const Pronouns: seq<string> := ["mi", "ni", "vi", "li", "ŝi", "ĝi", "ili", "oni", "si"]

  const Numerals: seq<string> :=
    ["nul", "unu", "du", "tri", "kvar", "kvin", "ses", "sep", "ok", "naŭ", "dek", "cent", "mil", "miliono",
     "miliardo", "biliono", "triliono"]

  const Conjunctions: seq<string> := ["kaj", "aŭ", "sed", "plus", "minus", "nek"]

  const SubordinatingConjunctions: seq<string> :=
    ["ke", "ĉu", "se", "ĉar", "dum", "ĝis", "kvankam", "kvazaŭ", "ol", "apenaŭ"]

  const Particles: seq<string> :=
    ["pli", "plej", "ne", "ĉi", "for", "ankoraŭ", "baldaŭ", "hodiaŭ", "hieraŭ", "morgaŭ", "jam", "ĵus", "nun",
     "plu", "tuj", "ajn", "almenaŭ", "ankaŭ", "apenaŭ", "des", "do", "eĉ", "ja", "jen", "jes", "ju", "kvazaŭ",
     "mem", "nur", "preskaŭ", "tamen", "tre", "tro"]

  /** Correlative ("table word") prefixes, in match-priority order. */
  const TablePrefixes: seq<string> := ["ki", "ti", "i", "ĉi", "neni"]

  /** Correlative endings, in match-priority order. */
  const TableEndings: seq<string> := ["u", "o", "a", "es", "e", "am", "al", "el", "om"]

  /**
   * The six closed-class word lists tests 1-8 look a token up in. The
   * cascade is stated for any lists; `Standard` holds the class's own.
   */
  datatype WordLists = WordLists(
    prepositions: seq<string>,
    pronouns: seq<string>,
    numerals: seq<string>,
    conjunctions: seq<string>,
    subordinating: seq<string>,
    particles: seq<string>)

  const Standard: WordLists :=
    WordLists(Prepositions, Pronouns, Numerals, Conjunctions, SubordinatingConjunctions, Particles)

  /** Python's `s[::-1]`. */
  function Reversed<T>(s: seq<T>): seq<T>
  {
    seq(|s|, i requires 0 <= i < |s| => s[|s| - 1 - i])
  }

  /** Python's `list.index`: the first position holding `x`. */
  function IndexOf(tbl: seq<string>, x: string): (k: nat)
    requires x in tbl
    ensures k < |tbl| && tbl[k] == x
    ensures forall j :: 0 <= j < k ==> tbl[j] != x
  {
    if tbl[0] == x then 0 else 1 + IndexOf(tbl[1..], x)
  }
}
