/**
 * The `Esperanto` class (lib/Esperanto.py:4-265): construction from raw text,
 * with one child per word of a sentence, and the `describe` cascade, run
 * step by step as the source runs it.
 */
module Entity {
  import opened Wrappers
  import opened Lexicon
  import opened Strings
  import opened Cleaning
  import Kinds
  import opened Cascade

  class Esperanto {
    /** The cleaned text. */
    var text: string
    /** The words of a sentence, one object per piece; `None` when the text is not a sentence. */
    var wordsList: Option<seq<Esperanto>>

    /** `__init__`: clean the raw text; split a sentence into one child per space-separated piece. */
    constructor (raw: string)
      ensures text == Clean(raw)
      ensures wordsList.Some? <==> ' ' in text
      ensures wordsList.Some? ==> |wordsList.value| == |Split(text)| && forall i :: 0 <= i < |Split(text)| ==>
        wordsList.value[i].text == Split(text)[i] && wordsList.value[i].wordsList.None?
      ensures wordsList.Some? ==> forall j, k :: 0 <= j < |wordsList.value| && 0 <= k < |wordsList.value| && j != k ==>
        wordsList.value[j] != wordsList.value[k]
      decreases if ' ' in Clean(raw) then 1 else 0, 3
    {
      text, wordsList := Clean(raw), None;
      new;
      SetWords();
    }

    /** The second half of `__init__`: `words_list` from the (cleaned) text. */
    method SetWords()
      requires forall c :: c in text ==> KeepInText(c)
      modifies this
      ensures text == old(text)
      ensures wordsList.Some? <==> ' ' in text
      ensures wordsList.Some? ==> |wordsList.value| == |Split(text)| && forall i :: 0 <= i < |Split(text)| ==>
        fresh(wordsList.value[i]) && wordsList.value[i].text == Split(text)[i] && wordsList.value[i].wordsList.None?
      ensures wordsList.Some? ==> forall j, k :: 0 <= j < |wordsList.value| && 0 <= k < |wordsList.value| && j != k ==>
        wordsList.value[j] != wordsList.value[k]
      decreases if ' ' in text then 1 else 0, 2
    {
      wordsList := Children(text);
    }

    /** The branch of `__init__` on `is_sentence`: the children of a sentence, or none. */
    static method Children(t: string) returns (ws: Option<seq<Esperanto>>)
      requires forall c :: c in t ==> KeepInText(c)
      ensures ws.Some? <==> ' ' in t
      ensures ws.Some? ==> |ws.value| == |Split(t)| && forall i :: 0 <= i < |Split(t)| ==>
        fresh(ws.value[i]) && ws.value[i].text == Split(t)[i] && ws.value[i].wordsList.None?
      ensures ws.Some? ==> forall j, k :: 0 <= j < |ws.value| && 0 <= k < |ws.value| && j != k ==> ws.value[j] != ws.value[k]
      decreases if ' ' in t then 1 else 0, 1
    {
      Kinds.FindSpace(t);
      if Kinds.IsSentence(t) {
        var pieces := Split(t);
        SplitPiecesAreWords(t);
        var children := Words(pieces);
        ws := Some(children);
      } else {
        ws := None;
      }
    }

    /** The list comprehension of `__init__`: one new object per piece, each built from the piece with non-letters removed. */
    static method Words(pieces: seq<string>) returns (children: seq<Esperanto>)
      requires forall k :: 0 <= k < |pieces| ==> pieces[k] != [] && WordChars(pieces[k])
      ensures |children| == |pieces|
      ensures forall k :: 0 <= k < |pieces| ==>
        fresh(children[k]) && children[k].text == pieces[k] && children[k].wordsList.None?
      ensures forall j, k :: 0 <= j < |children| && 0 <= k < |children| && j != k ==> children[j] != children[k]
      decreases 0, 5
    {
      children := [];
      for i := 0 to |pieces|
        invariant |children| == i
        invariant forall k :: 0 <= k < i ==>
          fresh(children[k]) && children[k].text == pieces[k] && children[k].wordsList.None?
        invariant forall j, k :: 0 <= j < i && 0 <= k < i && j != k ==> children[j] != children[k]
      {
        var child := Word(pieces[i]);
        children := children + [child];
      }
    }

    /** One element of the comprehension: the object built from a piece after the per-word filter. */
    static method Word(piece: string) returns (child: Esperanto)
      requires piece != [] && WordChars(piece)
      ensures fresh(child) && child.text == piece && child.wordsList.None?
      decreases 0, 4
    {
      var kept := Keep(piece, KeepInWord);
      CleanWordPiece(piece);
      Kinds.Partition(piece);
      child := new Esperanto(kept);
    }

    /** `describe(mode)`: the description list, the vector, or both, of this text. */
    method Describe(mode: string) returns (r: Outcome)
      ensures r.InvalidMode? <==> mode !in Modes
      ensures mode == "description" ==> r == Ok(DescriptionOut(Classify(Standard, text).labels))
      ensures mode == "vector" ==> r == Ok(VectorOut(Classify(Standard, text).vector))
      ensures mode == "both" ==> r == Ok(BothOut(Classify(Standard, text).labels, Classify(Standard, text).vector))
    {
      if mode !in Modes {
        return InvalidMode(mode);
      }
      if !Kinds.IsWord(text) {
        if mode == "description" {
          return Ok(DescriptionOut([]));
        } else if mode == "vector" {
          return Ok(VectorOut(Zeros(94) + [1]));
        } else {
          return Ok(BothOut([], Zeros(94) + [1]));
        }
      }
      var prop, vect := DescribeWord(Standard);
      if mode == "description" {
        r := Ok(DescriptionOut(prop));
      } else if mode == "vector" {
        r := Ok(VectorOut(vect));
      } else {
        r := Ok(BothOut(prop, vect));
      }
    }

    /** The word branch of `describe`: the tests in priority order, growing `prop` and `vect`. */
    method DescribeWord(lx: WordLists) returns (prop: seq<Label>, vect: seq<int>)
      requires text != []
      ensures prop == WordLabels(lx, text) && vect == WordVector(lx, text)
    {
      var specFlag;
      prop, vect, specFlag := ClassTests(lx, text);
      ghost var headVect, headProp := vect, prop;
      var isIncorrect: int;
      if specFlag {
        var tail := Zeros(|Endings|) + Zeros(|Prefixes|) + Zeros(|Suffixes|);
        ZerosConcat(|Endings|, |Prefixes|);
        ZerosConcat(|Endings| + |Prefixes|, |Suffixes|);
        vect := vect + tail;
        isIncorrect := 0;
      } else {
        var morphProp, morphVect;
        morphProp, morphVect, isIncorrect := FallbackPasses(text);
        prop, vect := prop + morphProp, vect + morphVect;
      }
      assert vect == headVect + MorphBits(lx, text);
      assert prop == headProp + MorphLabels(lx, text);
      assert isIncorrect == IncorrectBit(lx, text);
      vect := vect + [isIncorrect];
    }
  }

  /**
   * Tests 1-8 (lib/Esperanto.py:103-212): the closed classes on the token,
   * the marker removal, then the pronoun test on the working copy.
   */
  method ClassTests(lx: WordLists, text: string) returns (prop: seq<Label>, vect: seq<int>, specFlag: bool)
    requires text != []
    ensures specFlag <==> !Fallback(lx, text)
    ensures vect == ClosedBits(ClosedClass(lx, text)) + CaseBits(lx, text) + PronounBits(lx, text)
    ensures prop == ClassLabels(ClosedClass(lx, text)) + CaseLabels(lx, text) + PronounLabels(lx, text)
  {
    var word := text;
    prop, vect, specFlag := ClosedClassTests(lx, word);
    var caseProp, caseVect;
    word, caseProp, caseVect := MarkerTests(word, specFlag);
    CaseParts(lx, text);
    prop, vect := prop + caseProp, vect + caseVect;
    var pronounProp, pronounVect;
    pronounProp, pronounVect, specFlag := PronounTests(lx, word, specFlag);
    prop, vect := prop + pronounProp, vect + pronounVect;
  }

  /** Tests 1-6 (lib/Esperanto.py:105-180): each runs only while no earlier one matched. */
  method ClosedClassTests(lx: WordLists, word: string) returns (prop: seq<Label>, vect: seq<int>, specFlag: bool)
    ensures specFlag <==> ClosedClass(lx, word).Some?
    ensures prop == ClassLabels(ClosedClass(lx, word))
    ensures vect == ClosedBits(ClosedClass(lx, word))
  {
    prop, vect, specFlag := MajorClassTests(lx, word);
    var minorProp, minorVect;
    minorProp, minorVect, specFlag := MinorClassTests(lx, word, specFlag);
    prop, vect := prop + minorProp, vect + minorVect;
  }

  /** Tests 1-2 (lib/Esperanto.py:105-140): preposition, then correlative. */
  method MajorClassTests(lx: WordLists, word: string) returns (prop: seq<Label>, vect: seq<int>, specFlag: bool)
    ensures specFlag <==> ClosedClass(lx, word).Some? && (ClosedClass(lx, word).value.Prep? || ClosedClass(lx, word).value.Table?)
    ensures prop == if specFlag then ClassLabels(ClosedClass(lx, word)) else []
    ensures vect == [Bit(ClosedClass(lx, word) == Some(Prep))] + TableBits(ClosedClass(lx, word))
  {
    MajorClassOf(lx, word);
    vect, prop := [], [];
    specFlag := false;

    if word in lx.prepositions {
      prop := prop + [Preposition];
      vect := vect + [1];
      specFlag := true;
    } else {
      vect := vect + [0];
    }

    if specFlag {
      vect := vect + Zeros(15);
    } else {
      var tableProp, tableVect;
      tableProp, tableVect, specFlag := TableWordTest(word);
      prop, vect := prop + tableProp, vect + tableVect;
    }
  }

  /** How tests 1-2 decide the class and the correlative segment. */
  lemma MajorClassOf(lx: WordLists, word: string)
    ensures word in lx.prepositions ==> ClosedClass(lx, word) == Some(Prep) && TableBits(ClosedClass(lx, word)) == Zeros(15)
    ensures word !in lx.prepositions ==>
      ClosedClass(lx, word) != Some(Prep) &&
      TableBits(ClosedClass(lx, word)) == TableBits(TableMatch(word)) &&
      (TableMatch(word).Some? <==> ClosedClass(lx, word).Some? && ClosedClass(lx, word).value.Table?) &&
      (TableMatch(word).Some? ==> ClosedClass(lx, word) == TableMatch(word))
  {
  }

  /** Tests 3-6 (lib/Esperanto.py:143-180): conjunction, subordinating conjunction, particle, numeral. */
  method MinorClassTests(lx: WordLists, word: string, specFlag0: bool) returns (prop: seq<Label>, vect: seq<int>, specFlag: bool)
    requires specFlag0 <==> ClosedClass(lx, word).Some? && (ClosedClass(lx, word).value.Prep? || ClosedClass(lx, word).value.Table?)
    ensures specFlag <==> ClosedClass(lx, word).Some?
    ensures prop == if specFlag0 then [] else ClassLabels(ClosedClass(lx, word))
    ensures vect == [Bit(ClosedClass(lx, word) == Some(Conj)), Bit(ClosedClass(lx, word) == Some(SubConj)),
                     Bit(ClosedClass(lx, word) == Some(Part)), Bit(ClosedClass(lx, word) == Some(Num))]
  {
    MinorClassOf(lx, word);
    var conjProp, conjVect;
    conjProp, conjVect, specFlag := ConjunctionTests(lx, word, specFlag0);
    var lastProp, lastVect;
    lastProp, lastVect, specFlag := ParticleNumeralTests(lx, word, specFlag);
    prop, vect := conjProp + lastProp, conjVect + lastVect;
  }

  /** A token that tests 1-2 reject is classified by tests 3-6 alone. */
  lemma MinorClassOf(lx: WordLists, word: string)
    ensures var c := ClosedClass(lx, word);
      (c.Some? && (c.value.Prep? || c.value.Table?)) || c == MinorClass(lx, word)
  {
  }

  /** Tests 3-4 (lib/Esperanto.py:143-160): conjunction, then subordinating conjunction, skipped once an earlier test matched. */
  method ConjunctionTests(lx: WordLists, word: string, specFlag0: bool) returns (prop: seq<Label>, vect: seq<int>, specFlag: bool)
    ensures specFlag <==> specFlag0 || MinorClass(lx, word) == Some(Conj) || MinorClass(lx, word) == Some(SubConj)
    ensures prop == if specFlag0 || !specFlag then [] else ClassLabels(MinorClass(lx, word))
    ensures vect == [Bit(!specFlag0 && MinorClass(lx, word) == Some(Conj)), Bit(!specFlag0 && MinorClass(lx, word) == Some(SubConj))]
  {
    specFlag := specFlag0;
    vect, prop := [], [];

    if specFlag {
      vect := vect + [0];
    } else if word in lx.conjunctions {
      prop := prop + [Conjunction];
      vect := vect + [1];
      specFlag := true;
    } else {
      vect := vect + [0];
    }

    if specFlag {
      vect := vect + [0];
    } else if word in lx.subordinating {
      prop := prop + [SubordinatingConjunction];
      vect := vect + [1];
      specFlag := true;
    } else {
      vect := vect + [0];
    }
  }

  /** Tests 5-6 (lib/Esperanto.py:162-180): particle, then numeral, skipped once an earlier test matched. */
  method ParticleNumeralTests(lx: WordLists, word: string, specFlag0: bool) returns (prop: seq<Label>, vect: seq<int>, specFlag: bool)
    ensures specFlag <==> specFlag0 || LastClass(lx, word).Some?
    ensures prop == if specFlag0 then [] else ClassLabels(LastClass(lx, word))
    ensures vect == [Bit(!specFlag0 && LastClass(lx, word) == Some(Part)), Bit(!specFlag0 && LastClass(lx, word) == Some(Num))]
  {
    specFlag := specFlag0;
    vect, prop := [], [];

    if specFlag {
      vect := vect + [0];
    } else if word in lx.particles {
      prop := prop + [Particle];
      vect := vect + [1];
      specFlag := true;
    } else {
      vect := vect + [0];
    }

    if specFlag {
      vect := vect + [0];
    } else if word in lx.numerals || (|word| > 4 && (word[|word| - 3..] == "dek" || word[|word| - 4..] == "cent")) {
      prop := prop + [Numeral];
      vect := vect + [1];
      specFlag := true;
    } else {
      vect := vect + [0];
    }
  }

  /** Test 2, first scan (lib/Esperanto.py:118-121): the first correlative prefix the token starts with. */
  method PrefixScan(word: string) returns (tmpPrefix: string)
    ensures FirstHit(StartHits(TablePrefixes, word)).None? ==> tmpPrefix == ""
    ensures FirstHit(StartHits(TablePrefixes, word)).Some? ==>
      tmpPrefix == TablePrefixes[FirstHit(StartHits(TablePrefixes, word)).value]
  {
    tmpPrefix := "";
    ghost var p := -1;
    var i := 0;
    while i < |TablePrefixes|
      invariant 0 <= i <= |TablePrefixes|
      invariant tmpPrefix == "" && p == -1
      invariant forall j :: 0 <= j < i ==> !StartsWith(word, TablePrefixes[j])
    {
      if StartsWith(word, TablePrefixes[i]) {
        tmpPrefix, p := TablePrefixes[i], i;
        break;
      }
      i := i + 1;
    }
    ghost var hits := StartHits(TablePrefixes, word);
    assert forall j :: 0 <= j < |TablePrefixes| ==> hits[j] == StartsWith(word, TablePrefixes[j]);
    assert FirstHit(hits) == if p < 0 then None else Some(p as nat);
  }

  /** Test 2, second scan (lib/Esperanto.py:122-125): the first correlative ending the token ends with. */
  method EndingScan(word: string) returns (tmpEnding: string)
    ensures FirstHit(EndHits(TableEndings, word)).None? ==> tmpEnding == ""
    ensures FirstHit(EndHits(TableEndings, word)).Some? ==>
      tmpEnding == TableEndings[FirstHit(EndHits(TableEndings, word)).value]
  {
    tmpEnding := "";
    ghost var e := -1;
    var i := 0;
    while i < |TableEndings|
      invariant 0 <= i <= |TableEndings|
      invariant tmpEnding == "" && e == -1
      invariant forall j :: 0 <= j < i ==> !EndsWith(word, TableEndings[j])
    {
      if EndsWith(word, TableEndings[i]) {
        tmpEnding, e := TableEndings[i], i;
        break;
      }
      i := i + 1;
    }
    ghost var hits := EndHits(TableEndings, word);
    assert forall j :: 0 <= j < |TableEndings| ==> hits[j] == EndsWith(word, TableEndings[j]);
    assert FirstHit(hits) == if e < 0 then None else Some(e as nat);
  }

  /** Test 2 (lib/Esperanto.py:117-140): the two scans, then the whole-token check and the one-hot bits. */
  method TableWordTest(word: string) returns (prop: seq<Label>, vect: seq<int>, matched: bool)
    ensures matched <==> TableMatch(word).Some?
    ensures prop == ClassLabels(TableMatch(word))
    ensures vect == TableBits(TableMatch(word))
  {
    var tmpPrefix := PrefixScan(word);
    var tmpEnding := EndingScan(word);
    ScansDecideTableMatch(word, tmpPrefix, tmpEnding);
    if tmpPrefix != "" && tmpEnding != "" && word == tmpPrefix + tmpEnding {
      prop := [TableWord];
      vect := [1];
      var pi := IndexOf(TablePrefixes, tmpPrefix);
      var ei := IndexOf(TableEndings, tmpEnding);
      prop := prop + [TablePrefix(pi)];
      prop := prop + [TableEnding(ei)];
      var tmpVect := Zeros(|TablePrefixes|)[pi := 1];
      OneHotUpdate(|TablePrefixes|, pi);
      vect := vect + tmpVect;
      tmpVect := Zeros(|TableEndings|)[ei := 1];
      OneHotUpdate(|TableEndings|, ei);
      vect := vect + tmpVect;
      matched := true;
    } else {
      prop := [];
      vect := Zeros(15);
      matched := false;
    }
  }

  /** What the two scans found decides the table-word test. */
  lemma ScansDecideTableMatch(word: string, tmpPrefix: string, tmpEnding: string)
    requires FirstHit(StartHits(TablePrefixes, word)).None? ==> tmpPrefix == ""
    requires FirstHit(StartHits(TablePrefixes, word)).Some? ==>
      tmpPrefix == TablePrefixes[FirstHit(StartHits(TablePrefixes, word)).value]
    requires FirstHit(EndHits(TableEndings, word)).None? ==> tmpEnding == ""
    requires FirstHit(EndHits(TableEndings, word)).Some? ==>
      tmpEnding == TableEndings[FirstHit(EndHits(TableEndings, word)).value]
    ensures TableMatch(word).Some? <==> tmpPrefix != "" && tmpEnding != "" && word == tmpPrefix + tmpEnding
    ensures TableMatch(word).Some? ==>
      tmpPrefix in TablePrefixes && tmpEnding in TableEndings &&
      TableMatch(word) == Some(Table(IndexOf(TablePrefixes, tmpPrefix), IndexOf(TableEndings, tmpEnding)))
  {
    TableEntriesNonEmpty();
    ScanResult(StartHits(TablePrefixes, word), TablePrefixes, tmpPrefix);
    ScanResult(EndHits(TableEndings, word), TableEndings, tmpEnding);
    var fp := FirstHit(StartHits(TablePrefixes, word));
    var fe := FirstHit(EndHits(TableEndings, word));
    if fp.Some? && fe.Some? {
      HitsAlike(TablePrefixes, word);
      HitsAlike(TableEndings, word);
      FirstHitIndex(TablePrefixes, StartHits(TablePrefixes, word), tmpPrefix);
      FirstHitIndex(TableEndings, EndHits(TableEndings, word), tmpEnding);
    }
  }

  /** No correlative prefix or ending is empty. */
  lemma TableEntriesNonEmpty()
    ensures forall k :: 0 <= k < |TablePrefixes| ==> TablePrefixes[k] != ""
    ensures forall k :: 0 <= k < |TableEndings| ==> TableEndings[k] != ""
  {
  }

  /** A scan over a table of non-empty entries returns "" exactly when it found nothing. */
  lemma ScanResult(hits: seq<bool>, tbl: seq<string>, found: string)
    requires |hits| == |tbl| && forall k :: 0 <= k < |tbl| ==> tbl[k] != ""
    requires FirstHit(hits).None? ==> found == ""
    requires FirstHit(hits).Some? ==> found == tbl[FirstHit(hits).value]
    ensures FirstHit(hits).Some? <==> found != ""
  {
  }

  /** Equal entries of a table hit alike, in both scans. */
  lemma HitsAlike(tbl: seq<string>, w: string)
    ensures forall j, k :: 0 <= j < |tbl| && 0 <= k < |tbl| && tbl[j] == tbl[k] ==> StartHits(tbl, w)[j] == StartHits(tbl, w)[k]
    ensures forall j, k :: 0 <= j < |tbl| && 0 <= k < |tbl| && tbl[j] == tbl[k] ==> EndHits(tbl, w)[j] == EndHits(tbl, w)[k]
  {
  }

  /**
   * Step 7 (lib/Esperanto.py:183-198): unless a class matched or the token is
   * bare, remove a final "n", then a final "j", labelling accusative and
   * exactly one of plural and singular.
   */
  method MarkerTests(word0: string, specFlag: bool) returns (word: string, prop: seq<Label>, vect: seq<int>)
    requires word0 != []
    ensures specFlag || Bare(word0) ==> word == word0 && prop == [] && vect == [0, 0]
    ensures !specFlag && !Bare(word0) ==>
      var s := StripMarkers(word0);
      word == s.stem && vect == [Bit(s.accusative), Bit(s.plural)] &&
      prop == (if s.accusative then [Accusative] else []) + (if s.plural then [Plural] else [Singular])
  {
    word := word0;
    prop, vect := [], [];
    if specFlag || word in ["j", "n", "jn"] {
      vect := vect + [0, 0];
    } else {
      ghost var s := StripMarkers(word0);
      if word[|word| - 1] == 'n' {
        prop := prop + [Accusative];
        vect := vect + [1];
        word := word[..|word| - 1];
      } else {
        vect := vect + [0];
      }
      assert word + (if s.accusative then "n" else "") == word0;
      assert word == s.stem + (if s.plural then "j" else "");
      if word[|word| - 1] == 'j' {
        prop := prop + [Plural];
        vect := vect + [1];
        word := word[..|word| - 1];
      } else {
        prop := prop + [Singular];
        vect := vect + [0];
      }
    }
  }

  /** The marker segment, the case labels and the working copy, by whether stripping runs. */
  lemma CaseParts(lx: WordLists, w: string)
    requires w != []
    ensures ClosedClass(lx, w).Some? || Bare(w) ==>
      CaseBits(lx, w) == [0, 0] && CaseLabels(lx, w) == [] && WorkingCopy(lx, w) == w
    ensures ClosedClass(lx, w).None? && !Bare(w) ==>
      var s := StripMarkers(w);
      CaseBits(lx, w) == [Bit(s.accusative), Bit(s.plural)] &&
      CaseLabels(lx, w) == (if s.accusative then [Accusative] else []) + (if s.plural then [Plural] else [Singular]) &&
      WorkingCopy(lx, w) == s.stem
  {
  }

  /** Test 8 (lib/Esperanto.py:201-212), on the working copy. */
  method PronounTests(lx: WordLists, word: string, specFlag0: bool) returns (prop: seq<Label>, vect: seq<int>, specFlag: bool)
    requires word != []
    ensures specFlag <==> specFlag0 || PronounOf(lx, word).Some?
    ensures prop == (if specFlag0 then [] else PronounLabelsOf(PronounOf(lx, word)))
    ensures vect == (if specFlag0 then [0, 0] else PronounBitsOf(PronounOf(lx, word)))
  {
    specFlag := specFlag0;
    prop := [];
    if specFlag {
      vect := [0, 0];
    } else if word in lx.pronouns {
      prop := [PersonalPronoun];
      vect := [1, 0];
      specFlag := true;
    } else if word[|word| - 1..] in lx.pronouns && word[|word| - 1] == 'a' {
      prop := [PossessivePronoun];
      vect := [0, 1];
      specFlag := true;
    } else {
      vect := [0, 0];
    }
  }

  /**
   * The fallback (lib/Esperanto.py:219-244): the ending, prefix and suffix
   * loops, all on the original text.
   */
  method FallbackPasses(text: string) returns (prop: seq<Label>, vect: seq<int>, isIncorrect: int)
    ensures vect == EndingBits(text) + PrefixBits(text) + SuffixBits(text)
    ensures prop == Marked(EndingBits(text), EndingGroup) + Marked(PrefixBits(text), PrefixGroup)
      + Marked(SuffixBits(text), SuffixGroup)
    ensures isIncorrect == Bit(1 !in EndingBits(text))
  {
    var endingProp, endingVect, prefixProp, prefixVect, suffixProp, suffixVect;
    endingProp, endingVect, isIncorrect := EndingPass(text);
    prefixProp, prefixVect := PrefixPass(text);
    suffixProp, suffixVect := SuffixPass(text, Suffixes);
    prop := endingProp + prefixProp + suffixProp;
    vect := endingVect + prefixVect + suffixVect;
  }

  /** The fallback's ending loop (lib/Esperanto.py:220-228): clears `isIncorrect` when an ending matches. */
  method EndingPass(text: string) returns (prop: seq<Label>, vect: seq<int>, isIncorrect: int)
    ensures vect == EndingBits(text)
    ensures prop == Marked(EndingBits(text), EndingGroup)
    ensures isIncorrect == Bit(1 !in EndingBits(text))
  {
    ghost var bits := EndingBits(text);
    prop, vect := [], [];
    isIncorrect := 1;
    for i := 0 to |Endings|
      invariant vect == bits[..i]
      invariant prop == Marked(bits[..i], EndingGroup)
      invariant isIncorrect == Bit(1 !in bits[..i])
    {
      MarkedStep(bits, i, EndingGroup);
      if EndsWith(text, Endings[i]) {
        isIncorrect := 0;
        vect := vect + [1];
        prop := prop + [Affix(EndingGroup, i)];
      } else {
        vect := vect + [0];
      }
    }
    assert bits[..|Endings|] == bits;
  }

  /** The fallback's prefix loop (lib/Esperanto.py:230-236), over the reversed prefix table. */
  method PrefixPass(text: string) returns (prop: seq<Label>, vect: seq<int>)
    ensures vect == PrefixBits(text)
    ensures prop == Marked(PrefixBits(text), PrefixGroup)
  {
    ghost var bits := PrefixBits(text);
    prop, vect := [], [];
    for i := 0 to |Prefixes|
      invariant vect == bits[..i]
      invariant prop == Marked(bits[..i], PrefixGroup)
    {
      MarkedStep(bits, i, PrefixGroup);
      if StartsWith(text, Prefixes[i]) {
        vect := vect + [1];
        prop := prop + [Affix(PrefixGroup, i)];
      } else {
        vect := vect + [0];
      }
    }
    assert bits[..|Prefixes|] == bits;
  }

  /**
   * The fallback's suffix loop (lib/Esperanto.py:237-243), over the suffix
   * table `suffixes`: a suffix counts only when found after position 0.
   */
  method SuffixPass(text: string, suffixes: seq<string>) returns (prop: seq<Label>, vect: seq<int>)
    ensures vect == FoundBits(text, suffixes)
    ensures prop == Marked(FoundBits(text, suffixes), SuffixGroup)
  {
    ghost var bits := FoundBits(text, suffixes);
    prop, vect := [], [];
    for i := 0 to |suffixes|
      invariant vect == bits[..i]
      invariant prop == Marked(bits[..i], SuffixGroup)
    {
      MarkedStep(bits, i, SuffixGroup);
      if Find(text, suffixes[i]) > 0 {
        vect := vect + [1];
        prop := prop + [Affix(SuffixGroup, i)];
      } else {
        vect := vect + [0];
      }
    }
    assert bits[..|suffixes|] == bits;
  }

  /** One more step of a pass: the bit of entry `i` and, when it is set, its label. */
  lemma MarkedStep(bits: seq<int>, i: nat, g: Group)
    requires i < |bits|
    ensures bits[..i + 1] == bits[..i] + [bits[i]]
    ensures Marked(bits[..i + 1], g) == Marked(bits[..i], g) + (if bits[i] == 1 then [Affix(g, i)] else [])
  {
    assert bits[..i + 1][..i] == bits[..i];
  }
}
