/**
 * Properties of the `describe` cascade (lib/Esperanto.py:88-252), proved
 * about the specification in `Cascade`. Most hold for any word lists; the
 * ones that depend on the contents of the class's own lists are stated for
 * `Lexicon.Standard`.
 */
module CascadeLemmas {
  import opened Wrappers
  import opened Lexicon
  import opened Strings
  import opened Cascade
  import Kinds

  /** Cutting a five-part concatenation with parts of lengths 20, 2, 2, 70 and 1 back into its parts. */
  lemma Segments(a: seq<int>, b: seq<int>, c: seq<int>, d: seq<int>, x: int)
    requires |a| == 20 && |b| == 2 && |c| == 2 && |d| == 70
    ensures (a + b + c + d + [x])[..20] == a
    ensures (a + b + c + d + [x])[20..22] == b
    ensures (a + b + c + d + [x])[22..24] == c
    ensures (a + b + c + d + [x])[24..94] == d
    ensures (a + b + c + d + [x])[94] == x
  {
    var v := a + b + c + d + [x];
    assert v[..20] == a;
    assert v[20..22] == b;
    assert v[22..24] == c;
    assert v[24..94] == d;
  }

  /** Where each segment of a word's vector sits in the flat layout. */
  lemma Layout(lx: WordLists, w: string)
    requires w != []
    ensures WordVector(lx, w)[..20] == ClosedBits(ClosedClass(lx, w))
    ensures WordVector(lx, w)[20..22] == CaseBits(lx, w)
    ensures WordVector(lx, w)[22..24] == PronounBits(lx, w)
    ensures WordVector(lx, w)[24..94] == MorphBits(lx, w)
    ensures WordVector(lx, w)[94] == IncorrectBit(lx, w)
  {
    Segments(ClosedBits(ClosedClass(lx, w)), CaseBits(lx, w), PronounBits(lx, w), MorphBits(lx, w), IncorrectBit(lx, w));
  }

  /** The vector positions of the eight class flags: six closed classes and two pronouns. */
  const ClassFlagAt: seq<nat> :=
    [PrepositionAt, TableWordAt, ConjunctionAt, SubConjunctionAt, ParticleAt, NumeralAt, PersonalAt, PossessiveAt]

  /** At most one of the eight class flags of `v` is set. */
  predicate FlagsExclusive(v: seq<int>)
    requires |v| == VectorLength
  {
    forall i, j :: 0 <= i < j < |ClassFlagAt| ==> v[ClassFlagAt[i]] == 0 || v[ClassFlagAt[j]] == 0
  }

  /** Some closed-class flag (positions 0, 1 and 16-19) of `v` is set. */
  predicate ClosedFlagSet(v: seq<int>)
    requires |v| == VectorLength
  {
    exists i :: 0 <= i < 6 && v[ClassFlagAt[i]] == 1
  }

  /** Positions `lo` to `hi` of `v` are all 0. */
  predicate ZeroFrom(v: seq<int>, lo: nat, hi: nat)
    requires lo <= hi <= |v|
  {
    forall i :: lo <= i < hi ==> v[i] == 0
  }

  /** The two pronoun bits as `describe` emits them after tests 1-6. */
  function PronounSegment(c: Option<Closed>, k: Option<PronounKind>): seq<int>
  {
    if c.Some? then [0, 0] else PronounBitsOf(k)
  }

  /** The closed-class flags of the first segment: one per class, the correlative flag at position 1. */
  lemma ClosedFlags(c: Option<Closed>)
    ensures ClosedBits(c)[0] == Bit(c == Some(Prep))
    ensures ClosedBits(c)[1] == Bit(c.Some? && c.value.Table?)
    ensures ClosedBits(c)[16..] == [Bit(c == Some(Conj)), Bit(c == Some(SubConj)), Bit(c == Some(Part)), Bit(c == Some(Num))]
  {
    var head := [Bit(c == Some(Prep))] + TableBits(c);
    assert ClosedBits(c) == head + [Bit(c == Some(Conj)), Bit(c == Some(SubConj)), Bit(c == Some(Part)), Bit(c == Some(Num))];
    assert |head| == 16;
    if !(c.Some? && c.value.Table?) {
      assert TableBits(c)[0] == Zeros(15)[0];
    }
  }

  lemma FlagsOf(v: seq<int>, c: Option<Closed>, k: Option<PronounKind>)
    requires |v| == VectorLength && v[..20] == ClosedBits(c) && v[22..24] == PronounSegment(c, k)
    ensures FlagsExclusive(v)
  {
    ClosedFlags(c);
    assert v[0] == Bit(c == Some(Prep)) && v[1] == Bit(c.Some? && c.value.Table?);
    assert v[16..20] == ClosedBits(c)[16..];
    assert v[16] == Bit(c == Some(Conj)) && v[17] == Bit(c == Some(SubConj));
    assert v[18] == Bit(c == Some(Part)) && v[19] == Bit(c == Some(Num));
    assert v[22] == PronounSegment(c, k)[0] && v[23] == PronounSegment(c, k)[1];
  }

  /** The pronoun bits of a word are those of its working copy once tests 1-6 failed. */
  lemma PronounSegmentOf(lx: WordLists, w: string)
    requires w != []
    ensures PronounBits(lx, w) == PronounSegment(ClosedClass(lx, w), PronounOf(lx, WorkingCopy(lx, w)))
  {
  }

  /** At most one of the eight class flags is set. */
  lemma ClassFlagsExclusive(lx: WordLists, w: string)
    requires w != []
    ensures FlagsExclusive(WordVector(lx, w))
  {
    Layout(lx, w);
    PronounSegmentOf(lx, w);
    FlagsOf(WordVector(lx, w), ClosedClass(lx, w), PronounOf(lx, WorkingCopy(lx, w)));
  }

  lemma ClosedFlagSetIff(v: seq<int>, c: Option<Closed>)
    requires |v| == VectorLength && v[..20] == ClosedBits(c)
    ensures ClosedFlagSet(v) <==> c.Some?
  {
    ClosedFlags(c);
    assert v[16..20] == ClosedBits(c)[16..];
    if c.Some? {
      var i := match c.value case Prep => 0 case Table(_, _) => 1 case Conj => 2
        case SubConj => 3 case Part => 4 case Num => 5;
      assert v[ClassFlagAt[i]] == 1;
    }
  }

  /** A vector whose segments from `lo` on are all zero is zero from `lo` on. */
  lemma ZeroTail(v: seq<int>, lo: nat)
    requires |v| == VectorLength && (lo == 20 || lo == 24)
    requires lo == 20 ==> v[20..22] == [0, 0] && v[22..24] == [0, 0]
    requires v[24..94] == Zeros(70) && v[94] == 0
    ensures ZeroFrom(v, lo, VectorLength)
  {
    forall i | lo <= i < VectorLength ensures v[i] == 0 {
      if i < 22 { assert v[i] == v[20..22][i - 20]; }
      else if i < 24 { assert v[i] == v[22..24][i - 22]; }
      else if i < 94 { assert v[i] == v[24..94][i - 24]; }
    }
  }

  /** Without the fallback the morphological segment and the incorrect flag are zero. */
  lemma NoFallbackNoMorphology(lx: WordLists, w: string)
    requires w != [] && !Fallback(lx, w)
    ensures MorphBits(lx, w) == Zeros(70) && IncorrectBit(lx, w) == 0 && MorphLabels(lx, w) == []
  {
  }

  /**
   * A closed-class flag is set exactly when tests 1-6 matched, and then
   * everything from position 20 on is 0: no stripping, no pronoun, no fallback.
   */
  lemma ClosedClassSilencesRest(lx: WordLists, w: string)
    requires w != []
    ensures ClosedFlagSet(WordVector(lx, w)) <==> ClosedClass(lx, w).Some?
    ensures ClosedFlagSet(WordVector(lx, w)) ==> ZeroFrom(WordVector(lx, w), AccusativeAt, VectorLength)
  {
    var v := WordVector(lx, w);
    Layout(lx, w);
    ClosedFlagSetIff(v, ClosedClass(lx, w));
    if ClosedClass(lx, w).Some? {
      NoFallbackNoMorphology(lx, w);
      ZeroTail(v, 20);
    }
  }

  /** A set pronoun flag silences the fallback: positions 24-94 are 0 (20 and 21 may still be set). */
  lemma PronounSilencesMorphology(lx: WordLists, w: string)
    requires w != []
    ensures WordVector(lx, w)[PersonalAt] == 1 || WordVector(lx, w)[PossessiveAt] == 1 ==>
      ZeroFrom(WordVector(lx, w), EndingAt, VectorLength)
  {
    var v := WordVector(lx, w);
    Layout(lx, w);
    PronounSegmentOf(lx, w);
    var k := PronounOf(lx, WorkingCopy(lx, w));
    assert v[22] == PronounSegment(ClosedClass(lx, w), k)[0] && v[23] == PronounSegment(ClosedClass(lx, w), k)[1];
    if v[22] == 1 || v[23] == 1 {
      assert k.Some?;
      NoFallbackNoMorphology(lx, w);
      ZeroTail(v, 24);
    }
  }

  /** The personal-pronoun flag: tests 1-6 failed and the working copy is a listed pronoun. */
  lemma PersonalPronounIff(lx: WordLists, w: string)
    requires w != []
    ensures WordVector(lx, w)[PersonalAt] == 1 <==> ClosedClass(lx, w).None? && WorkingCopy(lx, w) in lx.pronouns
  {
    Layout(lx, w);
    PronounSegmentOf(lx, w);
    var k := PronounOf(lx, WorkingCopy(lx, w));
    assert WordVector(lx, w)[22] == PronounSegment(ClosedClass(lx, w), k)[0];
  }

  /**
   * The possessive branch compares the one-character tail `word[-1:]` with
   * the pronoun list, so it never fires when every pronoun has two or more characters.
   */
  lemma PossessiveNeverFires(lx: WordLists, w: string)
    requires w != []
    requires forall p :: p in lx.pronouns ==> |p| >= 2
    ensures WordVector(lx, w)[PossessiveAt] == 0
  {
    Layout(lx, w);
    PronounSegmentOf(lx, w);
    var k := PronounOf(lx, WorkingCopy(lx, w));
    NoPossessive(lx, WorkingCopy(lx, w));
    assert WordVector(lx, w)[23] == PronounSegment(ClosedClass(lx, w), k)[1];
  }

  /** `word[-1:]` has one character, so it is no pronoun of two or more characters. */
  lemma NoPossessive(lx: WordLists, wc: string)
    requires wc != []
    requires forall p :: p in lx.pronouns ==> |p| >= 2
    ensures PronounOf(lx, wc) != Some(Possessive)
  {
    assert |wc[|wc| - 1..]| == 1;
  }

  /** Every pronoun of the class's own list has at least two characters. */
  lemma StandardPronounsAreLong()
    ensures forall p :: p in Standard.pronouns ==> |p| >= 2
  {
    assert Standard.pronouns == Pronouns;
  }

  /** The first hit is the only hit with no hit before it. */
  lemma FirstHitUnique(hits: seq<bool>, k: nat)
    requires k < |hits| && hits[k] && forall j :: 0 <= j < k ==> !hits[j]
    ensures FirstHit(hits) == Some(k)
  {
  }

  /** The `for ... break` scan over `startswith`: the first entry the token starts with. */
  lemma FirstStart(tbl: seq<string>, w: string, p: nat)
    ensures FirstHit(StartHits(tbl, w)) == Some(p) <==>
      p < |tbl| && StartsWith(w, tbl[p]) && forall j :: 0 <= j < p ==> !StartsWith(w, tbl[j])
  {
    var hits := StartHits(tbl, w);
    if p < |tbl| && StartsWith(w, tbl[p]) && forall j :: 0 <= j < p ==> !StartsWith(w, tbl[j]) {
      FirstHitUnique(hits, p);
    } else if FirstHit(hits) == Some(p) {
      assert hits[p];
      forall j | 0 <= j < p ensures !StartsWith(w, tbl[j]) {
        assert !hits[j];
      }
    }
  }

  /** The `for ... break` scan over `endswith`: the first entry the token ends with. */
  lemma FirstEnd(tbl: seq<string>, w: string, e: nat)
    ensures FirstHit(EndHits(tbl, w)) == Some(e) <==>
      e < |tbl| && EndsWith(w, tbl[e]) && forall j :: 0 <= j < e ==> !EndsWith(w, tbl[j])
  {
    var hits := EndHits(tbl, w);
    if e < |tbl| && EndsWith(w, tbl[e]) && forall j :: 0 <= j < e ==> !EndsWith(w, tbl[j]) {
      FirstHitUnique(hits, e);
    } else if FirstHit(hits) == Some(e) {
      assert hits[e];
      forall j | 0 <= j < e ensures !EndsWith(w, tbl[j]) {
        assert !hits[j];
      }
    }
  }

  /**
   * Test 2: the token is a correlative exactly when the first table prefix it
   * starts with and the first table ending it ends with make up the whole token.
   */
  lemma TableMatchSpec(w: string, p: nat, e: nat)
    ensures TableMatch(w) == Some(Table(p, e)) <==>
      p < |TablePrefixes| && StartsWith(w, TablePrefixes[p]) &&
      (forall j :: 0 <= j < p ==> !StartsWith(w, TablePrefixes[j])) &&
      e < |TableEndings| && EndsWith(w, TableEndings[e]) &&
      (forall j :: 0 <= j < e ==> !EndsWith(w, TableEndings[j])) &&
      w == TablePrefixes[p] + TableEndings[e]
  {
    FirstStart(TablePrefixes, w, p);
    FirstEnd(TableEndings, w, e);
  }

  lemma OnesZeros(n: nat)
    ensures Ones(Zeros(n)) == 0
  {
    if n > 0 {
      assert Zeros(n)[..n - 1] == Zeros(n - 1);
      OnesZeros(n - 1);
    }
  }

  /** A one-hot group holds exactly one 1. */
  lemma {:induction false} OnesOneHot(n: nat, k: nat)
    requires k < n
    ensures Ones(OneHot(n, k)) == 1
  {
    if k == n - 1 {
      assert OneHot(n, k)[..n - 1] == Zeros(n - 1);
      OnesZeros(n - 1);
    } else {
      assert OneHot(n, k)[..n - 1] == OneHot(n - 1, k);
      OnesOneHot(n - 1, k);
    }
  }

  /** The correlative segment, positions 1-15: a flag and two one-hot groups, or all zeros. */
  lemma TableSegment(v: seq<int>, c: Option<Closed>)
    requires |v| == VectorLength && v[..20] == ClosedBits(c)
    requires c.Some? && c.value.Table? ==> c.value.p < |TablePrefixes| && c.value.e < |TableEndings|
    ensures v[1] == Bit(c.Some? && c.value.Table?)
    ensures c.Some? && c.value.Table? ==>
      v[2..7] == OneHot(|TablePrefixes|, c.value.p) && Ones(v[2..7]) == 1 &&
      v[7..16] == OneHot(|TableEndings|, c.value.e) && Ones(v[7..16]) == 1
    ensures !(c.Some? && c.value.Table?) ==> ZeroFrom(v, 1, 16)
  {
    var t := TableBits(c);
    var b := ClosedBits(c);
    assert b[1..16] == t;
    assert v[1..16] == b[1..16];
    if c.Some? && c.value.Table? {
      assert t == [1] + OneHot(5, c.value.p) + OneHot(9, c.value.e);
      assert v[2..7] == t[1..6] && v[7..16] == t[6..15];
      OnesOneHot(5, c.value.p);
      OnesOneHot(9, c.value.e);
    } else {
      assert t == Zeros(15);
      forall i | 1 <= i < 16 ensures v[i] == 0 {
        assert v[i] == t[i - 1];
      }
    }
  }

  /** After a closed-class match the description list is that class's labels alone. */
  lemma ClosedClassLabelsOnly(lx: WordLists, w: string)
    requires w != [] && ClosedClass(lx, w).Some?
    ensures WordLabels(lx, w) == ClassLabels(ClosedClass(lx, w))
  {
    NoFallbackNoMorphology(lx, w);
  }

  /**
   * The correlative flag is set when the token is no preposition and passes
   * test 2; then positions 2-6 and 7-15 each hold one 1, at the matched
   * table indices, and the labels are the group, the prefix and the ending.
   * Otherwise positions 1-15 are all 0.
   */
  lemma TableWordBits(lx: WordLists, w: string)
    requires w != []
    ensures WordVector(lx, w)[TableWordAt] == 1 <==> w !in lx.prepositions && TableMatch(w).Some?
    ensures WordVector(lx, w)[TableWordAt] == 1 ==>
      var m := TableMatch(w).value;
      WordVector(lx, w)[2..7] == OneHot(|TablePrefixes|, m.p) && Ones(WordVector(lx, w)[2..7]) == 1 &&
      WordVector(lx, w)[7..16] == OneHot(|TableEndings|, m.e) && Ones(WordVector(lx, w)[7..16]) == 1 &&
      WordLabels(lx, w) == [TableWord, TablePrefix(m.p), TableEnding(m.e)]
    ensures WordVector(lx, w)[TableWordAt] == 0 ==> ZeroFrom(WordVector(lx, w), TableWordAt, ConjunctionAt)
  {
    Layout(lx, w);
    TableClass(lx, w);
    if ClosedClass(lx, w).Some? {
      ClosedClassLabelsOnly(lx, w);
    }
    TableWordBitsOf(WordVector(lx, w), WordLabels(lx, w), ClosedClass(lx, w), TableMatch(w),
      w !in lx.prepositions && TableMatch(w).Some?);
  }

  /** `TableWordBits` for a vector `v` and labels of class `c`, where `m` is the correlative match. */
  lemma TableWordBitsOf(v: seq<int>, labels: seq<Label>, c: Option<Closed>, m: Option<Closed>, isTable: bool)
    requires |v| == VectorLength && v[..20] == ClosedBits(c)
    requires (c.Some? && c.value.Table?) <==> isTable
    requires isTable ==> c == m && labels == ClassLabels(c)
    requires m.Some? ==> m.value.Table? && m.value.p < |TablePrefixes| && m.value.e < |TableEndings|
    ensures v[TableWordAt] == 1 <==> isTable
    ensures v[TableWordAt] == 1 ==>
      v[2..7] == OneHot(|TablePrefixes|, m.value.p) && Ones(v[2..7]) == 1 &&
      v[7..16] == OneHot(|TableEndings|, m.value.e) && Ones(v[7..16]) == 1 &&
      labels == [TableWord, TablePrefix(m.value.p), TableEnding(m.value.e)]
    ensures v[TableWordAt] == 0 ==> ZeroFrom(v, TableWordAt, ConjunctionAt)
  {
    TableSegment(v, c);
  }

  /** Test 2 decides the class exactly when test 1 failed and the token is a correlative. */
  lemma TableClass(lx: WordLists, w: string)
    ensures (ClosedClass(lx, w).Some? && ClosedClass(lx, w).value.Table?) <==> w !in lx.prepositions && TableMatch(w).Some?
    ensures w !in lx.prepositions && TableMatch(w).Some? ==> ClosedClass(lx, w) == TableMatch(w)
  {
  }

  /** The six closed-class flags of a vector whose first segment belongs to class `c`. */
  lemma ClosedFlagValues(v: seq<int>, c: Option<Closed>)
    requires |v| == VectorLength && v[..20] == ClosedBits(c)
    ensures v[PrepositionAt] == Bit(c == Some(Prep))
    ensures v[ConjunctionAt] == Bit(c == Some(Conj)) && v[SubConjunctionAt] == Bit(c == Some(SubConj))
    ensures v[ParticleAt] == Bit(c == Some(Part)) && v[NumeralAt] == Bit(c == Some(Num))
  {
    ClosedFlags(c);
    assert v[16..20] == ClosedBits(c)[16..];
    assert v[0] == ClosedBits(c)[0];
  }

  /**
   * Tests 1-6 in priority order: each closed-class flag is set exactly when
   * its list matches and no earlier test did. A token in two lists gets the
   * earlier class only.
   */
  lemma ClosedClassPriority(lx: WordLists, w: string)
    requires w != []
    ensures WordVector(lx, w)[PrepositionAt] == 1 <==> w in lx.prepositions
    ensures WordVector(lx, w)[ConjunctionAt] == 1 <==>
      w !in lx.prepositions && TableMatch(w).None? && w in lx.conjunctions
    ensures WordVector(lx, w)[SubConjunctionAt] == 1 <==>
      w !in lx.prepositions && TableMatch(w).None? && w !in lx.conjunctions && w in lx.subordinating
    ensures WordVector(lx, w)[ParticleAt] == 1 <==>
      w !in lx.prepositions && TableMatch(w).None? && w !in lx.conjunctions && w !in lx.subordinating &&
      w in lx.particles
    ensures WordVector(lx, w)[NumeralAt] == 1 <==>
      w !in lx.prepositions && TableMatch(w).None? && w !in lx.conjunctions && w !in lx.subordinating &&
      w !in lx.particles && IsNumeral(lx, w)
  {
    Layout(lx, w);
    ClosedFlagValues(WordVector(lx, w), ClosedClass(lx, w));
  }

  /** A correlative is one of the table prefixes followed by one of the table endings. */
  lemma TableMatchForm(w: string)
    requires TableMatch(w).Some?
    ensures w == TablePrefixes[TableMatch(w).value.p] + TableEndings[TableMatch(w).value.e]
  {
  }

  /** "dum" and "ĝis" are listed as prepositions and as subordinating conjunctions; test 1 wins. */
  lemma PrepositionOverlap()
    ensures "dum" in Standard.subordinating && ClosedClass(Standard, "dum") == Some(Prep)
    ensures "ĝis" in Standard.subordinating && ClosedClass(Standard, "ĝis") == Some(Prep)
  {
    OverlapListed();
    PrepositionWins(Standard, "dum");
    PrepositionWins(Standard, "ĝis");
  }

  /** "dum" and "ĝis" stand in both the preposition and the subordinating-conjunction list. */
  lemma OverlapListed()
    ensures "dum" in Prepositions && "ĝis" in Prepositions
    ensures "dum" in SubordinatingConjunctions && "ĝis" in SubordinatingConjunctions
  {
    assert Prepositions[8] == "dum" && Prepositions[12] == "ĝis";
    assert SubordinatingConjunctions[4] == "dum" && SubordinatingConjunctions[5] == "ĝis";
  }

  /** Test 1 comes first: a listed preposition is classified as one, whatever other list holds it. */
  lemma PrepositionWins(lx: WordLists, w: string)
    requires w in lx.prepositions
    ensures ClosedClass(lx, w) == Some(Prep)
  {
  }

  /** Test 3 decides a token that tests 1-2 reject and the conjunction list holds. */
  lemma ConjunctionClass(lx: WordLists, w: string)
    requires w !in lx.prepositions && TableMatch(w).None? && w in lx.conjunctions
    ensures ClosedClass(lx, w) == Some(Conj)
  {
  }

  /** Test 4 decides a token that tests 1-3 reject and the subordinating list holds. */
  lemma SubordinatingClass(lx: WordLists, w: string)
    requires w !in lx.prepositions && TableMatch(w).None? && w !in lx.conjunctions && w in lx.subordinating
    ensures ClosedClass(lx, w) == Some(SubConj)
  {
  }

  /** "kvazaŭ" and "apenaŭ" are neither prepositions nor coordinating conjunctions. */
  lemma ParticleOverlapUnlisted(w: string)
    requires w == "kvazaŭ" || w == "apenaŭ"
    ensures w !in Prepositions && w !in Conjunctions
  {
    forall i | 0 <= i < |Prepositions| ensures Prepositions[i] != w {
      assert |w| == 6 && w[5] == 'ŭ';
    }
  }

  /** "kvazaŭ" and "apenaŭ" are both subordinating conjunctions and particles. */
  lemma ParticleOverlapListed(w: string)
    requires w == "kvazaŭ" || w == "apenaŭ"
    ensures w in SubordinatingConjunctions && w in Particles
  {
    if w == "kvazaŭ" {
      assert SubordinatingConjunctions[7] == w && Particles[26] == w;
    } else {
      assert SubordinatingConjunctions[9] == w && Particles[18] == w;
    }
  }

  /** "kvazaŭ" and "apenaŭ" are listed as subordinating conjunctions and as particles; test 4 wins. */
  lemma ParticleOverlap(w: string)
    requires w == "kvazaŭ" || w == "apenaŭ"
    ensures w in Standard.particles && ClosedClass(Standard, w) == Some(SubConj)
  {
    assert TableMatch(w).None? by {
      NoTablePrefix(w);
      NoTableWord(w);
    }
    assert w !in Standard.prepositions && w !in Standard.conjunctions && w in Standard.subordinating by {
      ParticleOverlapUnlisted(w);
      ParticleOverlapListed(w);
    }
    assert w in Standard.particles by {
      ParticleOverlapListed(w);
    }
    SubordinatingClass(Standard, w);
  }

  /** A token whose first two letters begin no table prefix starts with none of them. */
  lemma NoTablePrefix(w: string)
    requires |w| >= 2 && w[0] !in "tiĉn" && (w[0] == 'k' ==> w[1] != 'i')
    ensures forall p :: 0 <= p < |TablePrefixes| ==> !StartsWith(w, TablePrefixes[p])
  {
    forall p | 0 <= p < |TablePrefixes| ensures !StartsWith(w, TablePrefixes[p]) {
      assert TablePrefixes[p][0] in "tiĉn" || TablePrefixes[p][..2] == "ki";
    }
  }

  /** A token that starts with none of the table prefixes is no correlative. */
  lemma NoTableWord(w: string)
    requires forall p :: 0 <= p < |TablePrefixes| ==> !StartsWith(w, TablePrefixes[p])
    ensures TableMatch(w).None?
  {
  }

  /**
   * No table ending ends in "n" or "j", and tests 1-6 see the unstripped
   * token, so an accusative or plural correlative such as "ĉiun" or "kiuj"
   * is never recognised as one.
   */
  lemma MarkedNoTableWord(w: string)
    requires w != [] && (w[|w| - 1] == 'n' || w[|w| - 1] == 'j')
    ensures TableMatch(w).None?
  {
    TableEndingLetters();
    forall e | 0 <= e < |TableEndings| ensures !EndsWith(w, TableEndings[e]) {
      var x := TableEndings[e];
      if |x| <= |w| {
        assert w[|w| - |x|..][|x| - 1] == w[|w| - 1];
      }
    }
    NoTableEnding(w);
  }

  /** Every table ending is non-empty and ends in neither "n" nor "j". */
  lemma TableEndingLetters()
    ensures forall e :: 0 <= e < |TableEndings| ==>
      TableEndings[e] != [] && TableEndings[e][|TableEndings[e]| - 1] != 'n' && TableEndings[e][|TableEndings[e]| - 1] != 'j'
  {
  }

  /** A token that ends with none of the table endings is no correlative. */
  lemma NoTableEnding(w: string)
    requires forall e :: 0 <= e < |TableEndings| ==> !EndsWith(w, TableEndings[e])
    ensures TableMatch(w).None?
  {
  }

  /** Tests 1-6 all fail on a token that no closed list holds, that is no correlative and no numeral. */
  lemma Unclassified(lx: WordLists, w: string)
    requires w !in lx.prepositions && TableMatch(w).None? && w !in lx.conjunctions && w !in lx.subordinating
    requires w !in lx.particles && !IsNumeral(lx, w)
    ensures ClosedClass(lx, w).None?
  {
  }

  /** The result of stripping: the accusative "n" first, then the plural "j" of what is left. */
  lemma StripMarkersSpec(w: string)
    requires w != [] && !Bare(w)
    ensures StripMarkers(w).accusative <==> EndsWith(w, "n")
    ensures StripMarkers(w).plural <==> EndsWith(if EndsWith(w, "n") then w[..|w| - 1] else w, "j")
  {
  }

  /**
   * Positions 20-21 and the case labels: zero and empty when a closed class
   * matched or the token is a bare marker; otherwise the accusative and
   * plural markers removed, with exactly one of plural and singular labelled.
   */
  lemma CaseSegment(lx: WordLists, w: string)
    requires w != []
    ensures ClosedClass(lx, w).Some? || Bare(w) ==>
      WordVector(lx, w)[AccusativeAt] == 0 && WordVector(lx, w)[PluralAt] == 0 && CaseLabels(lx, w) == []
    ensures ClosedClass(lx, w).None? && !Bare(w) ==>
      (WordVector(lx, w)[AccusativeAt] == 1 <==> EndsWith(w, "n")) &&
      (WordVector(lx, w)[PluralAt] == 1 <==> EndsWith(if EndsWith(w, "n") then w[..|w| - 1] else w, "j")) &&
      (Accusative in CaseLabels(lx, w) <==> EndsWith(w, "n")) &&
      (Plural in CaseLabels(lx, w) <==> WordVector(lx, w)[PluralAt] == 1) &&
      (Singular in CaseLabels(lx, w) <==> WordVector(lx, w)[PluralAt] == 0)
  {
    Layout(lx, w);
    var v := WordVector(lx, w);
    assert v[20] == CaseBits(lx, w)[0] && v[21] == CaseBits(lx, w)[1];
    CaseBitsSpec(lx, w);
  }

  /** The marker segment and the case labels, before they are placed in the vector. */
  lemma CaseBitsSpec(lx: WordLists, w: string)
    requires w != []
    ensures ClosedClass(lx, w).Some? || Bare(w) ==> CaseBits(lx, w) == [0, 0] && CaseLabels(lx, w) == []
    ensures ClosedClass(lx, w).None? && !Bare(w) ==>
      (CaseBits(lx, w)[0] == 1 <==> EndsWith(w, "n")) &&
      (CaseBits(lx, w)[1] == 1 <==> EndsWith(if EndsWith(w, "n") then w[..|w| - 1] else w, "j")) &&
      (Accusative in CaseLabels(lx, w) <==> EndsWith(w, "n")) &&
      (Plural in CaseLabels(lx, w) <==> CaseBits(lx, w)[1] == 1) &&
      (Singular in CaseLabels(lx, w) <==> CaseBits(lx, w)[1] == 0)
  {
    if ClosedClass(lx, w).None? && !Bare(w) {
      StripMarkersSpec(w);
    }
  }
}
