/**
 * Worked tokens of the `describe` cascade (lib/Esperanto.py:98-252): what
 * the vector and the description list are. Each is first stated for any
 * word lists that place the token as the class's own lists do, then for
 * `Lexicon.Standard`.
 */
module Examples {
  import opened Wrappers
  import opened Lexicon
  import opened Strings
  import opened Cascade
  import opened CascadeLemmas
  import opened MorphologyLemmas
  import Listings

  /** "kaj" under lists that hold it as a conjunction and not as a preposition. */
  lemma KajUnder(lx: WordLists)
    requires "kaj" !in lx.prepositions && "kaj" in lx.conjunctions
    ensures WordLabels(lx, "kaj") == [Conjunction]
    ensures WordVector(lx, "kaj")[ConjunctionAt] == 1
    ensures ZeroFrom(WordVector(lx, "kaj"), AccusativeAt, VectorLength)
  {
    NoTablePrefix("kaj");
    NoTableWord("kaj");
    ConjunctionClass(lx, "kaj");
    ClosedClassPriority(lx, "kaj");
    ClosedClassSilencesRest(lx, "kaj");
    ClosedClassLabelsOnly(lx, "kaj");
  }

  /** "kaj": the conjunction flag and label only; positions 20-94 are 0. */
  lemma Kaj()
    ensures WordLabels(Standard, "kaj") == [Conjunction]
    ensures WordVector(Standard, "kaj")[ConjunctionAt] == 1
    ensures ZeroFrom(WordVector(Standard, "kaj"), AccusativeAt, VectorLength)
  {
    Listings.KajListing();
    KajUnder(Standard);
  }

  /** No closed list holds `w`, and its first letters begin no table prefix. */
  predicate Unlisted(lx: WordLists, w: string)
  {
    w !in lx.prepositions && w !in lx.conjunctions && w !in lx.subordinating &&
    w !in lx.particles && w !in lx.numerals
  }

  /** "min" under lists that hold "mi" as a pronoun and "min" nowhere. */
  lemma MinUnder(lx: WordLists)
    requires Unlisted(lx, "min") && "mi" in lx.pronouns
    ensures WordLabels(lx, "min") == [Accusative, Singular, PersonalPronoun]
    ensures WordVector(lx, "min")[AccusativeAt] == 1 && WordVector(lx, "min")[PluralAt] == 0
    ensures WordVector(lx, "min")[PersonalAt] == 1
    ensures ZeroFrom(WordVector(lx, "min"), EndingAt, VectorLength)
  {
    NoTablePrefix("min");
    NoTableWord("min");
    Unclassified(lx, "min");
    assert StripMarkers("min") == Stripping(true, false, "mi");
    CaseSegment(lx, "min");
    PersonalPronounIff(lx, "min");
    PronounSilencesMorphology(lx, "min");
    NoFallbackNoMorphology(lx, "min");
  }

  /** "min": the accusative is removed and the pronoun test sees "mi"; the fallback does not run. */
  lemma Min()
    ensures WordLabels(Standard, "min") == [Accusative, Singular, PersonalPronoun]
    ensures WordVector(Standard, "min")[AccusativeAt] == 1 && WordVector(Standard, "min")[PluralAt] == 0
    ensures WordVector(Standard, "min")[PersonalAt] == 1
    ensures ZeroFrom(WordVector(Standard, "min"), EndingAt, VectorLength)
  {
    Listings.MinLongLists();
    Listings.MinShortLists();
    MinUnder(Standard);
  }

  /** The labels of a word that no closed class and no pronoun claims: the case labels, then the fallback's. */
  lemma FallbackLabels(lx: WordLists, w: string)
    requires w != [] && Fallback(lx, w)
    ensures WordLabels(lx, w) == CaseLabels(lx, w) + MorphLabels(lx, w)
  {
    var a, b, c, d := ClassLabels(ClosedClass(lx, w)), CaseLabels(lx, w), PronounLabels(lx, w), MorphLabels(lx, w);
    assert a == [] && c == [];
    DropEmpty(a, b, c, d);
  }

  /** Empty parts drop out of a four-part concatenation. */
  lemma DropEmpty<T>(a: seq<T>, b: seq<T>, c: seq<T>, d: seq<T>)
    requires a == [] && c == []
    ensures a + b + c + d == b + d
  {
  }

  /** Under lists that hold neither "belan" nor "bela", tests 1-6 fail and the working copy is "bela". */
  lemma BelanStripped(lx: WordLists)
    requires Unlisted(lx, "belan")
    ensures ClosedClass(lx, "belan").None? && WorkingCopy(lx, "belan") == "bela"
    ensures CaseLabels(lx, "belan") == [Accusative, Singular]
  {
    var w := "belan";
    NoTablePrefix(w);
    NoTableWord(w);
    Unclassified(lx, w);
    assert StripMarkers(w) == Stripping(true, false, "bela");
  }

  /** "belan" under lists that hold neither "belan" nor "bela", with pronouns of two or more characters. */
  lemma BelanUnder(lx: WordLists)
    requires Unlisted(lx, "belan") && "bela" !in lx.pronouns
    requires forall p :: p in lx.pronouns ==> |p| >= 2
    ensures WordLabels(lx, "belan") == [Accusative, Singular] + MorphLabels(lx, "belan")
    ensures WordVector(lx, "belan")[AccusativeAt] == 1 && WordVector(lx, "belan")[PluralAt] == 0
    ensures WordVector(lx, "belan")[PersonalAt] == 0
    ensures 1 !in WordVector(lx, "belan")[EndingAt..PrefixAt]
    ensures WordVector(lx, "belan")[IncorrectAt] == 1
  {
    var w := "belan";
    BelanStripped(lx);
    NoPronounFallback(lx, w);
    FallbackLabels(lx, w);
    CaseSegment(lx, w);
    PersonalPronounIff(lx, w);
    MarkedWordIsIncorrect(lx, w);
    IncorrectIff(lx, w);
  }

  /**
   * "belan": the accusative is removed and the word is singular, but the
   * endings are matched against "belan", which ends in none, so no ending
   * bit is set and the word is flagged incorrect.
   */
  lemma Belan()
    ensures WordLabels(Standard, "belan") == [Accusative, Singular] + MorphLabels(Standard, "belan")
    ensures WordVector(Standard, "belan")[AccusativeAt] == 1 && WordVector(Standard, "belan")[PluralAt] == 0
    ensures WordVector(Standard, "belan")[PersonalAt] == 0
    ensures 1 !in WordVector(Standard, "belan")[EndingAt..PrefixAt]
    ensures WordVector(Standard, "belan")[IncorrectAt] == 1
  {
    Listings.BelanLongLists();
    Listings.BelanShortLists();
    StandardPronounsAreLong();
    BelanUnder(Standard);
  }

  /** A text that ends with ending `i` sets bit `i` of the ending group and no other. */
  lemma SingleEnding(w: string, i: nat)
    requires i < |Endings| && EndsWith(w, Endings[i])
    ensures EndingBits(w) == OneHot(|Endings|, i)
  {
    AtMostOneEndingOf(w);
    var e := EndingBits(w);
    assert e[i] == 1;
    assert forall j :: 0 <= j < |Endings| ==> e[j] == OneHot(|Endings|, i)[j];
  }

  /** Under lists that hold "hundo" nowhere, tests 1-6 fail and nothing is stripped. */
  lemma HundoStripped(lx: WordLists)
    requires Unlisted(lx, "hundo")
    ensures ClosedClass(lx, "hundo").None? && WorkingCopy(lx, "hundo") == "hundo"
  {
    var w := "hundo";
    NoTablePrefix(w);
    NoTableWord(w);
    Unclassified(lx, w);
    assert StripMarkers(w) == Stripping(false, false, w);
  }

  /** "hundo" ends with the "o" ending and no other. */
  lemma HundoEnding()
    ensures EndingBits("hundo") == OneHot(|Endings|, 0) && 1 in EndingBits("hundo")
  {
    assert Endings[0] == "o" && EndsWith("hundo", "o");
    SingleEnding("hundo", 0);
    assert EndingBits("hundo")[0] == 1;
  }

  /** No entry of the prefix table starts "hundo". */
  lemma HundoPrefixes()
    ensures PrefixBits("hundo") == Zeros(|Prefixes|)
  {
    forall i | 0 <= i < |Prefixes| ensures PrefixBits("hundo")[i] == 0 {
      var x := Prefixes[i];
      assert x == PrefixesAsWritten[|PrefixesAsWritten| - 1 - i];
      assert x[0] != 'h';
    }
  }

  /** A letter of "hundo". */
  predicate HundoLetter(c: char)
  {
    c == 'h' || c == 'u' || c == 'n' || c == 'd' || c == 'o'
  }

  /** `x` cannot occur in "hundo" after position 0: its first or last letter is missing there, or it is "on". */
  predicate ForeignToHundo(x: string)
  {
    x != [] && (!HundoLetter(x[0]) || !HundoLetter(x[|x| - 1]) || (|x| == 2 && x[0] == 'o' && x[1] == 'n'))
  }

  lemma FirstLineForeignToHundo()
    ensures forall i :: 0 <= i < |SuffixesFirstLine| ==> ForeignToHundo(SuffixesFirstLine[i])
  {
  }

  lemma SecondLineForeignToHundo()
    ensures forall i :: 0 <= i < |SuffixesSecondLine| ==> ForeignToHundo(SuffixesSecondLine[i])
  {
  }

  /** Every entry of the suffix table starts or ends with a letter that "hundo" lacks, or is "on". */
  lemma SuffixesForeignToHundo()
    ensures forall i :: 0 <= i < |Suffixes| ==> ForeignToHundo(Suffixes[i])
  {
    FirstLineForeignToHundo();
    SecondLineForeignToHundo();
    var a, b := SuffixesFirstLine, SuffixesSecondLine;
    forall i | 0 <= i < |Suffixes| ensures ForeignToHundo(Suffixes[i]) {
      var j := |a + b| - 1 - i;
      assert Suffixes[i] == (a + b)[j];
      if j < |a| {
        assert (a + b)[j] == a[j];
      } else {
        assert (a + b)[j] == b[j - |a|];
      }
    }
  }

  /** No suffix occurs in "hundo" after position 0. */
  lemma HundoSuffixes()
    ensures SuffixBits("hundo") == Zeros(|Suffixes|)
  {
    var w := "hundo";
    SuffixesForeignToHundo();
    forall i | 0 <= i < |Suffixes| ensures SuffixBits(w)[i] == 0 {
      forall k | 1 <= k ensures !OccursAt(w, Suffixes[i], k) {
        ForeignNotLater(Suffixes[i], k);
      }
      SuffixBit(w, i);
    }
  }

  /** A text foreign to "hundo" occurs nowhere in it after position 0. */
  lemma ForeignNotLater(x: string, k: int)
    requires ForeignToHundo(x) && 1 <= k
    ensures !OccursAt("hundo", x, k)
  {
  }

  /** "hundo" under lists that hold it nowhere, with pronouns of two or more characters. */
  lemma HundoUnder(lx: WordLists)
    requires Unlisted(lx, "hundo") && "hundo" !in lx.pronouns
    requires forall p :: p in lx.pronouns ==> |p| >= 2
    ensures WordVector(lx, "hundo")[EndingAt..PrefixAt] == OneHot(|Endings|, 0)
    ensures 1 !in WordVector(lx, "hundo")[PrefixAt..IncorrectAt]
    ensures WordVector(lx, "hundo")[IncorrectAt] == 0
    ensures WordLabels(lx, "hundo") == [Singular, Affix(EndingGroup, 0)]
  {
    HundoStripped(lx);
    NoPronounFallback(lx, "hundo");
    HundoVector(lx);
    HundoLabels(lx);
  }

  /** The fallback's groups of "hundo": the "o" ending alone, then zeros up to the incorrect flag, which is 0. */
  lemma HundoVector(lx: WordLists)
    requires Fallback(lx, "hundo")
    ensures WordVector(lx, "hundo")[EndingAt..PrefixAt] == OneHot(|Endings|, 0)
    ensures 1 !in WordVector(lx, "hundo")[PrefixAt..IncorrectAt]
    ensures WordVector(lx, "hundo")[IncorrectAt] == 0
  {
    MorphLayout(lx, "hundo");
    HundoEnding();
    HundoPrefixes();
    HundoSuffixes();
    IncorrectIff(lx, "hundo");
    NoAffixBit(WordVector(lx, "hundo"));
  }

  /** A vector whose prefix and suffix groups are zero has no 1 between them. */
  lemma NoAffixBit(v: seq<int>)
    requires |v| == VectorLength
    requires v[PrefixAt..SuffixAt] == Zeros(|Prefixes|) && v[SuffixAt..IncorrectAt] == Zeros(|Suffixes|)
    ensures 1 !in v[PrefixAt..IncorrectAt]
  {
    assert v[PrefixAt..IncorrectAt] == v[PrefixAt..SuffixAt] + v[SuffixAt..IncorrectAt];
  }

  /** The labels of "hundo" when nothing is stripped and the fallback runs: singular, then the "o" ending. */
  lemma HundoLabels(lx: WordLists)
    requires ClosedClass(lx, "hundo").None? && Fallback(lx, "hundo")
    ensures WordLabels(lx, "hundo") == [Singular, Affix(EndingGroup, 0)]
  {
    FallbackLabels(lx, "hundo");
    HundoCase(lx);
    HundoMorph(lx);
  }

  lemma HundoCase(lx: WordLists)
    requires ClosedClass(lx, "hundo").None?
    ensures CaseLabels(lx, "hundo") == [Singular]
  {
    assert StripMarkers("hundo") == Stripping(false, false, "hundo");
  }

  lemma HundoMorph(lx: WordLists)
    requires Fallback(lx, "hundo")
    ensures MorphLabels(lx, "hundo") == [Affix(EndingGroup, 0)]
  {
    HundoEnding();
    HundoPrefixes();
    HundoSuffixes();
    MarkedFirstOnly(|Endings|, EndingGroup);
    MarkedZeros(|Prefixes|, PrefixGroup);
    MarkedZeros(|Suffixes|, SuffixGroup);
  }

  /**
   * "hundo": the fallback sets the "o" ending bit alone, no prefix or suffix bit,
   * and the word is not flagged incorrect; the labels are the singular and the "o" ending.
   */
  lemma Hundo()
    ensures WordVector(Standard, "hundo")[EndingAt..PrefixAt] == OneHot(|Endings|, 0)
    ensures 1 !in WordVector(Standard, "hundo")[PrefixAt..IncorrectAt]
    ensures WordVector(Standard, "hundo")[IncorrectAt] == 0
    ensures WordLabels(Standard, "hundo") == [Singular, Affix(EndingGroup, 0)]
  {
    Listings.HundoLongLists();
    Listings.HundoShortLists();
    StandardPronounsAreLong();
    HundoUnder(Standard);
  }

  /** Under lists that hold "ĉiun" nowhere, tests 1-6 fail and the working copy is "ĉiu". */
  lemma ChiunStripped(lx: WordLists)
    requires Unlisted(lx, "ĉiun")
    ensures ClosedClass(lx, "ĉiun").None? && WorkingCopy(lx, "ĉiun") == "ĉiu"
  {
    var w := "ĉiun";
    MarkedNoTableWord(w);
    Unclassified(lx, w);
    assert StripMarkers(w) == Stripping(true, false, "ĉiu");
  }

  /** "ĉiun" under lists that hold neither "ĉiun" nor "ĉiu", with pronouns of two or more characters. */
  lemma ChiunUnder(lx: WordLists)
    requires Unlisted(lx, "ĉiun") && "ĉiu" !in lx.pronouns
    requires forall p :: p in lx.pronouns ==> |p| >= 2
    ensures WordVector(lx, "ĉiun")[TableWordAt] == 0
    ensures WordVector(lx, "ĉiun")[AccusativeAt] == 1
    ensures WordVector(lx, "ĉiun")[IncorrectAt] == 1
  {
    var w := "ĉiun";
    ChiunStripped(lx);
    TableWordBits(lx, w);
    CaseSegment(lx, w);
    PersonalPronounIff(lx, w);
    MarkedWordIsIncorrect(lx, w);
  }

  /**
   * "ĉiun", the accusative of the correlative "ĉiu": tests 1-6 see the
   * unstripped token, so it is no table word; the accusative is removed and
   * the word ends up flagged incorrect.
   */
  lemma Chiun()
    ensures WordVector(Standard, "ĉiun")[TableWordAt] == 0
    ensures WordVector(Standard, "ĉiun")[AccusativeAt] == 1
    ensures WordVector(Standard, "ĉiun")[IncorrectAt] == 1
  {
    Listings.ChiunLongLists();
    Listings.ChiunShortLists();
    StandardPronounsAreLong();
    ChiunUnder(Standard);
  }
}
