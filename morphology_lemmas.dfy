/**
 * Properties of the morphological fallback of `describe`
 * (lib/Esperanto.py:220-245): the ending, prefix and suffix groups of the
 * vector, the incorrect flag and the labels the fallback appends.
 */
module MorphologyLemmas {
  import opened Wrappers
  import opened Lexicon
  import opened Strings
  import opened Cascade
  import opened CascadeLemmas

  /** Cutting positions 24-93 of a 95-entry vector back into the three fallback groups. */
  lemma Groups(v: seq<int>, e: seq<int>, p: seq<int>, s: seq<int>)
    requires |v| == VectorLength && |e| == 9 && |p| == 10 && |s| == 51 && v[24..94] == e + p + s
    ensures v[EndingAt..PrefixAt] == e && v[PrefixAt..SuffixAt] == p && v[SuffixAt..IncorrectAt] == s
  {
    var m := v[24..94];
    assert v[24..33] == m[..9] == e;
    assert v[33..43] == m[9..19] == p;
    assert v[43..94] == m[19..] == s;
  }

  /** The entries of a slice of `v` that equals `seg` are those of `seg`. */
  lemma SliceEntries(v: seq<int>, lo: nat, seg: seq<int>)
    requires lo + |seg| <= |v| && v[lo..lo + |seg|] == seg
    ensures forall i :: 0 <= i < |seg| ==> v[lo + i] == seg[i]
  {
    forall i | 0 <= i < |seg| ensures v[lo + i] == seg[i] {
      assert v[lo..lo + |seg|][i] == v[lo + i];
    }
  }

  /** Positions 24-32 of a vector holding the ending bits of `w`. */
  lemma EndingEntries(v: seq<int>, w: string)
    requires |v| == VectorLength && v[EndingAt..PrefixAt] == EndingBits(w)
    ensures forall i :: 0 <= i < |Endings| ==> (v[EndingAt + i] == 1 <==> EndsWith(w, Endings[i]))
  {
    SliceEntries(v, EndingAt, EndingBits(w));
  }

  /** Positions 33-42 of a vector holding the prefix bits of `w`. */
  lemma PrefixEntries(v: seq<int>, w: string)
    requires |v| == VectorLength && v[PrefixAt..SuffixAt] == PrefixBits(w)
    ensures forall i :: 0 <= i < |Prefixes| ==> (v[PrefixAt + i] == 1 <==> StartsWith(w, Prefixes[i]))
  {
    SliceEntries(v, PrefixAt, PrefixBits(w));
  }

  /** Positions 43-93 of a vector holding the suffix bits of `w`. */
  lemma SuffixEntries(v: seq<int>, w: string)
    requires |v| == VectorLength && v[SuffixAt..IncorrectAt] == SuffixBits(w)
    ensures forall i :: 0 <= i < |Suffixes| ==>
      (v[SuffixAt + i] == 1 <==> !StartsWith(w, Suffixes[i]) && exists k :: 1 <= k && OccursAt(w, Suffixes[i], k))
  {
    SliceEntries(v, SuffixAt, SuffixBits(w));
    forall i | 0 <= i < |Suffixes|
      ensures SuffixBits(w)[i] == 1 <==> !StartsWith(w, Suffixes[i]) && exists k :: 1 <= k && OccursAt(w, Suffixes[i], k)
    {
      SuffixBit(w, i);
    }
  }

  /** The three groups of a word's vector, positions 24-32, 33-42 and 43-93. */
  lemma MorphLayout(lx: WordLists, w: string)
    requires w != [] && Fallback(lx, w)
    ensures WordVector(lx, w)[EndingAt..PrefixAt] == EndingBits(w)
    ensures WordVector(lx, w)[PrefixAt..SuffixAt] == PrefixBits(w)
    ensures WordVector(lx, w)[SuffixAt..IncorrectAt] == SuffixBits(w)
  {
    Layout(lx, w);
    assert MorphBits(lx, w) == EndingBits(w) + PrefixBits(w) + SuffixBits(w);
    Groups(WordVector(lx, w), EndingBits(w), PrefixBits(w), SuffixBits(w));
  }

  /**
   * The ending group: when the fallback runs, bit 24+i is set exactly when
   * the original text, not the stripped copy, ends with ending i.
   */
  lemma EndingSegment(lx: WordLists, w: string)
    requires w != [] && Fallback(lx, w)
    ensures forall i :: 0 <= i < |Endings| ==>
      (WordVector(lx, w)[EndingAt + i] == 1 <==> EndsWith(w, Endings[i]))
  {
    MorphLayout(lx, w);
    EndingEntries(WordVector(lx, w), w);
  }

  /** The prefix group: bit 33+i is set exactly when the text starts with entry i of the reversed prefix table. */
  lemma PrefixSegment(lx: WordLists, w: string)
    requires w != [] && Fallback(lx, w)
    ensures forall i :: 0 <= i < |Prefixes| ==>
      (WordVector(lx, w)[PrefixAt + i] == 1 <==> StartsWith(w, Prefixes[i]))
  {
    MorphLayout(lx, w);
    PrefixEntries(WordVector(lx, w), w);
  }

  /**
   * The suffix group: bit 43+i is set exactly when the text does not start
   * with suffix i but contains it at a later position; an occurrence at
   * position 0 hides every later one.
   */
  lemma SuffixSegment(lx: WordLists, w: string)
    requires w != [] && Fallback(lx, w)
    ensures forall i :: 0 <= i < |Suffixes| ==>
      (WordVector(lx, w)[SuffixAt + i] == 1 <==>
        !StartsWith(w, Suffixes[i]) && exists k :: 1 <= k && OccursAt(w, Suffixes[i], k))
  {
    MorphLayout(lx, w);
    SuffixEntries(WordVector(lx, w), w);
  }

  /** One suffix bit: set exactly when `find` reports a positive position. */
  lemma SuffixBit(w: string, i: nat)
    requires i < |Suffixes|
    ensures SuffixBits(w)[i] == 1 <==> !StartsWith(w, Suffixes[i]) && exists k :: 1 <= k && OccursAt(w, Suffixes[i], k)
  {
    FindPositive(w, Suffixes[i]);
  }

  /** No entry of `tbl` is a proper ending of another entry. */
  predicate EndingFree(tbl: seq<string>)
  {
    forall i, j :: 0 <= i < |tbl| && 0 <= j < |tbl| && i != j ==> !EndsWith(tbl[j], tbl[i])
  }

  /** No grammatical ending other than entry `i` ends with entry `i`. */
  lemma EndingFreeRow(i: nat)
    requires i < |Endings|
    ensures forall j :: 0 <= j < |Endings| && j != i ==> !EndsWith(Endings[j], Endings[i])
  {
    forall j | 0 <= j < |Endings| && j != i ensures !EndsWith(Endings[j], Endings[i]) {
      var x, y := Endings[i], Endings[j];
      if |x| == |y| {
        assert x != y;
      } else if |x| < |y| {
        assert y[|y| - 1] == 's' && x[|x| - 1] != 's';
      }
    }
  }

  /** No grammatical ending ends another. */
  lemma EndingsAreEndingFree()
    ensures EndingFree(Endings)
  {
    forall i | 0 <= i < |Endings| ensures forall j :: 0 <= j < |Endings| && j != i ==> !EndsWith(Endings[j], Endings[i]) {
      EndingFreeRow(i);
    }
  }

  /** Of two strings a text ends with, one ends the other. */
  lemma EndsWithEither(w: string, x: string, y: string)
    ensures EndsWith(w, x) && EndsWith(w, y) ==> EndsWith(y, x) || EndsWith(x, y)
  {
    if EndsWith(w, x) && EndsWith(w, y) {
      if |x| <= |y| {
        assert y[|y| - |x|..] == w[|w| - |x|..];
      } else {
        assert x[|x| - |y|..] == w[|w| - |y|..];
      }
    }
  }

  /** At most one entry of `s` is set. */
  predicate AtMostOneSet(s: seq<int>)
  {
    forall i, j :: 0 <= i < j < |s| ==> s[i] == 0 || s[j] == 0
  }

  /** A text ends with at most one grammatical ending. */
  lemma AtMostOneEndingOf(w: string)
    ensures AtMostOneSet(EndingBits(w))
  {
    var e := EndingBits(w);
    EndingsAreEndingFree();
    forall i, j | 0 <= i < j < |e| ensures e[i] == 0 || e[j] == 0 {
      EndsWithEither(w, Endings[i], Endings[j]);
    }
  }

  /** At most one bit of the ending group, positions 24-32, is ever set. */
  lemma AtMostOneEnding(lx: WordLists, w: string)
    requires w != []
    ensures AtMostOneSet(WordVector(lx, w)[EndingAt..PrefixAt])
  {
    if Fallback(lx, w) {
      MorphLayout(lx, w);
      AtMostOneEndingOf(w);
    } else {
      var v := WordVector(lx, w);
      Layout(lx, w);
      NoFallbackNoMorphology(lx, w);
      assert v[EndingAt..PrefixAt] == Zeros(70)[..9];
    }
  }

  /** The incorrect flag: the fallback ran and no bit of the ending group is set. */
  lemma IncorrectIff(lx: WordLists, w: string)
    requires w != []
    ensures WordVector(lx, w)[IncorrectAt] == 1 <==> Fallback(lx, w) && 1 !in WordVector(lx, w)[EndingAt..PrefixAt]
  {
    Layout(lx, w);
    if Fallback(lx, w) {
      MorphLayout(lx, w);
    }
  }

  /** No grammatical ending ends in "n" or "j", so a text ending in either sets no ending bit. */
  lemma NoEndingAfterMarker(w: string)
    requires w != [] && (w[|w| - 1] == 'n' || w[|w| - 1] == 'j')
    ensures 1 !in EndingBits(w)
  {
    var e := EndingBits(w);
    forall i | 0 <= i < |e| ensures e[i] == 0 {
      var x := Endings[i];
      assert x[|x| - 1] in "oaeius";
    }
  }

  /** A removed marker leaves its letter at the end of the original text. */
  lemma MarkerLetter(lx: WordLists, w: string)
    requires w != []
    requires WordVector(lx, w)[AccusativeAt] == 1 || WordVector(lx, w)[PluralAt] == 1
    ensures ClosedClass(lx, w).None? && !Bare(w)
    ensures w[|w| - 1] == 'n' || w[|w| - 1] == 'j'
  {
    CaseSegment(lx, w);
  }

  /** With pronouns of two or more characters, a working copy that is no listed pronoun leaves the fallback to run. */
  lemma NoPronounFallback(lx: WordLists, w: string)
    requires w != [] && ClosedClass(lx, w).None? && WorkingCopy(lx, w) !in lx.pronouns
    requires forall p :: p in lx.pronouns ==> |p| >= 2
    ensures Fallback(lx, w)
  {
    var wc := WorkingCopy(lx, w);
    assert |wc[|wc| - 1..]| == 1;
  }

  /**
   * The endings are matched against the unstripped text, so a word that
   * had an accusative or plural marker removed and is no pronoun is always
   * flagged incorrect (the possessive test being inert).
   */
  lemma MarkedWordIsIncorrect(lx: WordLists, w: string)
    requires w != []
    requires forall p :: p in lx.pronouns ==> |p| >= 2
    ensures ((WordVector(lx, w)[AccusativeAt] == 1 || WordVector(lx, w)[PluralAt] == 1) &&
             WordVector(lx, w)[PersonalAt] == 0) ==> WordVector(lx, w)[IncorrectAt] == 1
  {
    var v := WordVector(lx, w);
    if (v[AccusativeAt] == 1 || v[PluralAt] == 1) && v[PersonalAt] == 0 {
      MarkerLetter(lx, w);
      PersonalPronounIff(lx, w);
      NoPronounFallback(lx, w);
      NoEndingAfterMarker(w);
      MorphLayout(lx, w);
      IncorrectIff(lx, w);
    }
  }

  /** Where "eks" and "ek" stand in the reversed prefix table. */
  lemma EksPrefixes()
    ensures Prefixes[6] == "eks" && Prefixes[7] == "ek"
  {
  }

  /** A text starting with "eks" sets both the "eks" and the "ek" prefix bit (positions 39 and 40). */
  lemma EksSetsBoth(lx: WordLists, w: string)
    requires w != [] && Fallback(lx, w) && StartsWith(w, "eks")
    ensures WordVector(lx, w)[PrefixAt + 6] == 1 && WordVector(lx, w)[PrefixAt + 7] == 1
  {
    EksStartsBoth(w);
    PrefixSegment(lx, w);
  }

  /** A text starting with "eks" starts with entries 6 and 7 of the reversed prefix table. */
  lemma EksStartsBoth(w: string)
    requires StartsWith(w, "eks")
    ensures StartsWith(w, Prefixes[6]) && StartsWith(w, Prefixes[7])
  {
    EksPrefixes();
    assert w[..2] == w[..3][..2];
  }

  /** The labels of one group: one per set bit, in position order. */
  lemma {:induction false} MarkedSpec(bits: seq<int>, g: Group)
    requires Binary(bits)
    ensures |Marked(bits, g)| == Ones(bits)
    ensures forall i, j :: 0 <= i < j < |Marked(bits, g)| ==> Marked(bits, g)[i].index < Marked(bits, g)[j].index
  {
    if bits != [] {
      var init := bits[..|bits| - 1];
      assert Binary(init) by {
        forall i | 0 <= i < |init| ensures init[i] == 0 || init[i] == 1 {
          assert init[i] == bits[i];
        }
      }
      MarkedSpec(init, g);
    }
  }

  /** Trailing zeros add no label. */
  lemma {:induction false} MarkedZeroTail(a: seq<int>, m: nat, g: Group)
    ensures Marked(a + Zeros(m), g) == Marked(a, g)
  {
    if m == 0 {
      assert a + Zeros(m) == a;
    } else {
      var b := a + Zeros(m);
      assert b[..|b| - 1] == a + Zeros(m - 1);
      MarkedZeroTail(a, m - 1, g);
    }
  }

  /** A group with no bit set contributes no label. */
  lemma MarkedZeros(m: nat, g: Group)
    ensures Marked(Zeros(m), g) == []
  {
    MarkedZeroTail([], m, g);
    assert [] + Zeros(m) == Zeros(m);
  }

  /** A group whose only set bit is the first contributes the label of entry 0 alone. */
  lemma MarkedFirstOnly(m: nat, g: Group)
    requires m >= 1
    ensures Marked(OneHot(m, 0), g) == [Affix(g, 0)]
  {
    assert OneHot(m, 0) == [1] + Zeros(m - 1);
    MarkedZeroTail([1], m - 1, g);
    assert Marked([1], g) == Marked([], g) + [Affix(g, 0)];
  }

  /** Counting ones distributes over concatenation. */
  lemma {:induction false} OnesConcat(a: seq<int>, b: seq<int>)
    ensures Ones(a + b) == Ones(a) + Ones(b)
  {
    if b != [] {
      assert (a + b)[..|a + b| - 1] == a + b[..|b| - 1];
      OnesConcat(a, b[..|b| - 1]);
    } else {
      assert a + b == a;
    }
  }

  /** A sequence of 0/1 entries cut at any point is still one. */
  lemma BinarySlice(v: seq<int>, lo: nat, hi: nat)
    requires Binary(v) && lo <= hi <= |v|
    ensures Binary(v[lo..hi])
  {
    forall i | 0 <= i < hi - lo ensures v[lo..hi][i] == 0 || v[lo..hi][i] == 1 {
      assert v[lo..hi][i] == v[lo + i];
    }
  }

  /**
   * When the fallback runs it appends exactly one label per set bit of
   * positions 24-93: the ending, prefix and suffix labels, each group in
   * table order.
   */
  lemma FallbackLabelCount(lx: WordLists, w: string)
    requires w != [] && Fallback(lx, w)
    ensures |MorphLabels(lx, w)| == Ones(WordVector(lx, w)[EndingAt..IncorrectAt])
  {
    var v := WordVector(lx, w);
    WordVectorBinary(lx, w);
    MorphLayout(lx, w);
    var e, p, s := EndingBits(w), PrefixBits(w), SuffixBits(w);
    assert v[EndingAt..IncorrectAt] == e + p + s by {
      Layout(lx, w);
    }
    BinarySlice(v, EndingAt, PrefixAt);
    BinarySlice(v, PrefixAt, SuffixAt);
    BinarySlice(v, SuffixAt, IncorrectAt);
    MarkedSpec(e, EndingGroup);
    MarkedSpec(p, PrefixGroup);
    MarkedSpec(s, SuffixGroup);
    OnesConcat(e, p);
    OnesConcat(e + p, s);
  }
}
