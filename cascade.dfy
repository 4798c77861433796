/**
 * The classification cascade of `describe` (lib/Esperanto.py:88-252) as a
 * specification: what the description list and the 95-entry vector of a
 * token are. The imperative `Entity.Esperanto.Describe` is proved to build
 * exactly these; `CascadeLemmas` proves what they satisfy.
 */
module Cascade {
  import opened Wrappers
  import opened Lexicon
  import opened Strings
  import Kinds

  /** The affix table a label or a multi-hot bit refers to. */
  datatype Group = EndingGroup | PrefixGroup | SuffixGroup

  /**
   * A description label. Each constructor stands for one fixed phrase of the
   * source; an indexed one stands for entry `index` of the description table
   * that runs parallel to the affix table (and is reversed with it).
   */
  datatype Label =
    | Preposition
    | TableWord | TablePrefix(p: nat) | TableEnding(e: nat)
    | Conjunction | SubordinatingConjunction | Particle | Numeral
    | Accusative | Plural | Singular
    | PersonalPronoun | PossessivePronoun
    | Affix(group: Group, index: nat)

  /** The closed classes of tests 1-6, which exclude one another. */
  datatype Closed = Prep | Table(p: nat, e: nat) | Conj | SubConj | Part | Num

  datatype PronounKind = Personal | Possessive

  /** The result of removing the accusative `n` and then the plural `j`. */
  datatype Stripping = Stripping(accusative: bool, plural: bool, stem: string)

  /** What `describe("both")` returns: the description list and the vector. */
  datatype Description = Description(labels: seq<Label>, vector: seq<int>)

  const VectorLength: nat := 95

  /** Vector positions of the layout. */
  const PrepositionAt: nat := 0
  const TableWordAt: nat := 1
  const TablePrefixAt: nat := 2
  const TableEndingAt: nat := 7
  const ConjunctionAt: nat := 16
  const SubConjunctionAt: nat := 17
  const ParticleAt: nat := 18
  const NumeralAt: nat := 19
  const AccusativeAt: nat := 20
  const PluralAt: nat := 21
  const PersonalAt: nat := 22
  const PossessiveAt: nat := 23
  const EndingAt: nat := 24
  const PrefixAt: nat := 33
  const SuffixAt: nat := 43
  const IncorrectAt: nat := 94

  /** The first position holding `true`: the `for ... break` search of the source. */
  function FirstHit(hits: seq<bool>): (r: Option<nat>)
    ensures r.Some? ==> r.value < |hits| && hits[r.value] && forall j :: 0 <= j < r.value ==> !hits[j]
    ensures r.None? ==> forall j :: 0 <= j < |hits| ==> !hits[j]
  {
    if hits == [] then None
    else if hits[0] then Some(0)
    else match FirstHit(hits[1..])
      case None => None
      case Some(k) => Some(k + 1)
  }

  /** The first hit over a table is the table's own index of the entry hit, when equal entries hit alike. */
  lemma FirstHitIndex(tbl: seq<string>, hits: seq<bool>, x: string)
    requires |hits| == |tbl| && FirstHit(hits).Some? && x == tbl[FirstHit(hits).value]
    requires forall j, k :: 0 <= j < |tbl| && 0 <= k < |tbl| && tbl[j] == tbl[k] ==> hits[j] == hits[k]
    ensures x in tbl && IndexOf(tbl, x) == FirstHit(hits).value
  {
    var k := IndexOf(tbl, x);
    assert hits[k];
  }

  /** Which entries of `tbl` the token starts with. */
  function StartHits(tbl: seq<string>, w: string): seq<bool>
  {
    seq(|tbl|, i requires 0 <= i < |tbl| => StartsWith(w, tbl[i]))
  }

  /** Which entries of `tbl` the token ends with. */
  function EndHits(tbl: seq<string>, w: string): seq<bool>
  {
    seq(|tbl|, i requires 0 <= i < |tbl| => EndsWith(w, tbl[i]))
  }

  /**
   * Test 2: the first correlative prefix the token starts with and the first
   * correlative ending it ends with, accepted only when they make up the whole token.
   */
  function TableMatch(w: string): (r: Option<Closed>)
    ensures r.Some? ==> r.value.Table? && r.value.p < |TablePrefixes| && r.value.e < |TableEndings|
  {
    match (FirstHit(StartHits(TablePrefixes, w)), FirstHit(EndHits(TableEndings, w)))
    case (Some(p), Some(e)) => if w == TablePrefixes[p] + TableEndings[e] then Some(Table(p, e)) else None
    case _ => None
  }

  /** Test 6: a listed numeral, or a compound of more than four letters ending in "dek" or "cent". */
  predicate IsNumeral(lx: WordLists, w: string)
  {
    w in lx.numerals || (|w| > 4 && (EndsWith(w, "dek") || EndsWith(w, "cent")))
  }

  /** Tests 1-6 in priority order, all on the unstripped token. */
  function ClosedClass(lx: WordLists, w: string): Option<Closed>
  {
    if w in lx.prepositions then Some(Prep)
    else if TableMatch(w).Some? then TableMatch(w)
    else MinorClass(lx, w)
  }

  /** Tests 3-6, which decide the class of a token that tests 1-2 reject. */
  function MinorClass(lx: WordLists, w: string): Option<Closed>
  {
    if w in lx.conjunctions then Some(Conj)
    else if w in lx.subordinating then Some(SubConj)
    else LastClass(lx, w)
  }

  /** Tests 5-6, which decide the class of a token that tests 1-4 reject. */
  function LastClass(lx: WordLists, w: string): Option<Closed>
  {
    if w in lx.particles then Some(Part)
    else if IsNumeral(lx, w) then Some(Num)
    else None
  }

  /** The bare case and number markers, which are never stripped. */
  predicate Bare(w: string)
  {
    w in ["j", "n", "jn"]
  }

  /** Removes a final accusative "n", then a final plural "j". */
  function StripMarkers(w: string): (s: Stripping)
    requires w != [] && !Bare(w)
    ensures s.stem != []
    ensures w == s.stem + (if s.plural then "j" else "") + (if s.accusative then "n" else "")
    ensures s.accusative <==> EndsWith(w, "n")
    ensures !s.plural ==> !EndsWith(s.stem, "j")
  {
    var acc := w[|w| - 1] == 'n';
    assert acc && |w| == 1 ==> w == "n";
    var w1 := if acc then w[..|w| - 1] else w;
    var pl := w1[|w1| - 1] == 'j';
    assert pl && |w1| == 1 ==> w1 == "j" && (w == "j" || w == "jn");
    var stem := if pl then w1[..|w1| - 1] else w1;
    assert pl ==> w1 == stem + "j";
    assert acc ==> w == w1 + "n";
    Stripping(acc, pl, stem)
  }

  /** The working copy the pronoun test sees: stripped only when tests 1-6 failed and the token is not bare. */
  function WorkingCopy(lx: WordLists, w: string): (wc: string)
    requires w != []
    ensures wc != []
  {
    if ClosedClass(lx, w).Some? || Bare(w) then w else StripMarkers(w).stem
  }

  /**
   * Test 8 on the working copy. The possessive test compares the one-character
   * tail `wc[-1:]` with the pronoun list, as the source does.
   */
  function PronounOf(lx: WordLists, wc: string): Option<PronounKind>
    requires wc != []
  {
    if wc in lx.pronouns then Some(Personal)
    else if wc[|wc| - 1..] in lx.pronouns && wc[|wc| - 1] == 'a' then Some(Possessive)
    else None
  }

  /** The morphological fallback runs when no closed class and no pronoun matched. */
  predicate Fallback(lx: WordLists, w: string)
    requires w != []
  {
    ClosedClass(lx, w).None? && PronounOf(lx, WorkingCopy(lx, w)).None?
  }

  function OneHot(n: nat, k: nat): seq<int>
  {
    seq(n, i => if i == k then 1 else 0)
  }

  /** Setting one entry of a zero vector gives the one-hot vector. */
  lemma OneHotUpdate(n: nat, k: nat)
    requires k < n
    ensures Zeros(n)[k := 1] == OneHot(n, k)
  {
  }

  /** Positions 1-15: the correlative flag and its two one-hot groups. */
  function TableBits(c: Option<Closed>): (r: seq<int>)
    ensures |r| == 1 + |TablePrefixes| + |TableEndings| && Binary(r)
  {
    if c.Some? && c.value.Table?
    then [1] + OneHot(|TablePrefixes|, c.value.p) + OneHot(|TableEndings|, c.value.e)
    else Zeros(1 + |TablePrefixes| + |TableEndings|)
  }

  /** Positions 0-19: the six closed-class flags, with the correlative groups in between. */
  function ClosedBits(c: Option<Closed>): (r: seq<int>)
    ensures |r| == 20 && Binary(r)
  {
    BinaryConcat([Bit(c == Some(Prep))], TableBits(c));
    [Bit(c == Some(Prep))] + TableBits(c)
      + [Bit(c == Some(Conj)), Bit(c == Some(SubConj)), Bit(c == Some(Part)), Bit(c == Some(Num))]
  }

  /** Positions 20-21: accusative and plural markers removed. */
  function CaseBits(lx: WordLists, w: string): (r: seq<int>)
    requires w != []
    ensures |r| == 2 && Binary(r)
  {
    if ClosedClass(lx, w).None? && !Bare(w)
    then [Bit(StripMarkers(w).accusative), Bit(StripMarkers(w).plural)]
    else [0, 0]
  }

  /** The two pronoun bits for the outcome of the pronoun test. */
  function PronounBitsOf(k: Option<PronounKind>): (r: seq<int>)
    ensures |r| == 2 && Binary(r)
  {
    match k
    case Some(Personal) => [1, 0]
    case Some(Possessive) => [0, 1]
    case None => [0, 0]
  }

  /** Positions 22-23: personal and possessive pronoun. */
  function PronounBits(lx: WordLists, w: string): (r: seq<int>)
    requires w != []
    ensures |r| == 2 && Binary(r)
  {
    if ClosedClass(lx, w).Some? then [0, 0] else PronounBitsOf(PronounOf(lx, WorkingCopy(lx, w)))
  }

  /** One bit per grammatical ending the text ends with. */
  function EndingBits(t: string): seq<int>
  {
    seq(|Endings|, i requires 0 <= i < |Endings| => Bit(EndsWith(t, Endings[i])))
  }

  /** One bit per prefix the text starts with. */
  function PrefixBits(t: string): seq<int>
  {
    seq(|Prefixes|, i requires 0 <= i < |Prefixes| => Bit(StartsWith(t, Prefixes[i])))
  }

  /** One bit per entry of `tbl` whose first occurrence in the text lies after position 0. */
  function FoundBits(t: string, tbl: seq<string>): seq<int>
  {
    seq(|tbl|, i requires 0 <= i < |tbl| => Bit(Find(t, tbl[i]) > 0))
  }

  /** One bit per suffix whose first occurrence lies after position 0. */
  function SuffixBits(t: string): seq<int>
  {
    FoundBits(t, Suffixes)
  }

  /** Positions 24-93, computed on the original text, not the working copy. */
  function MorphBits(lx: WordLists, w: string): (r: seq<int>)
    requires w != []
    ensures |r| == |Endings| + |Prefixes| + |Suffixes| && Binary(r)
  {
    if Fallback(lx, w) then
      BinaryConcat(EndingBits(w), PrefixBits(w));
      BinaryConcat(EndingBits(w) + PrefixBits(w), SuffixBits(w));
      EndingBits(w) + PrefixBits(w) + SuffixBits(w)
    else Zeros(|Endings| + |Prefixes| + |Suffixes|)
  }

  /** Position 94: the fallback ran and no ending bit was set. */
  function IncorrectBit(lx: WordLists, w: string): int
    requires w != []
  {
    Bit(Fallback(lx, w) && 1 !in EndingBits(w))
  }

  /** The vector of a word, in the layout order of the source. */
  function WordVector(lx: WordLists, w: string): (v: seq<int>)
    requires w != []
    ensures |v| == VectorLength
  {
    ClosedBits(ClosedClass(lx, w))
      + CaseBits(lx, w)
      + PronounBits(lx, w)
      + MorphBits(lx, w)
      + [IncorrectBit(lx, w)]
  }

  lemma WordVectorBinary(lx: WordLists, w: string)
    requires w != []
    ensures Binary(WordVector(lx, w))
  {
    var v2 := ClosedBits(ClosedClass(lx, w)) + CaseBits(lx, w) + PronounBits(lx, w);
    BinaryConcat(v2, MorphBits(lx, w));
    BinaryConcat(v2 + MorphBits(lx, w), [IncorrectBit(lx, w)]);
  }

  /** One label per 1 in `bits`, in position order. */
  function Marked(bits: seq<int>, g: Group): (r: seq<Label>)
    ensures forall l :: l in r ==> l.Affix? && l.group == g && l.index < |bits| && bits[l.index] == 1
    ensures forall i :: 0 <= i < |bits| && bits[i] == 1 ==> Affix(g, i) in r
  {
    if bits == [] then []
    else Marked(bits[..|bits| - 1], g) + (if bits[|bits| - 1] == 1 then [Affix(g, |bits| - 1)] else [])
  }

  function ClassLabels(c: Option<Closed>): seq<Label>
  {
    match c
    case None => []
    case Some(Prep) => [Preposition]
    case Some(Table(p, e)) => [TableWord, TablePrefix(p), TableEnding(e)]
    case Some(Conj) => [Conjunction]
    case Some(SubConj) => [SubordinatingConjunction]
    case Some(Part) => [Particle]
    case Some(Num) => [Numeral]
  }

  /** The accusative label if an "n" was removed, then exactly one of plural and singular. */
  function CaseLabels(lx: WordLists, w: string): seq<Label>
    requires w != []
  {
    if ClosedClass(lx, w).None? && !Bare(w)
    then (if StripMarkers(w).accusative then [Accusative] else [])
      + (if StripMarkers(w).plural then [Plural] else [Singular])
    else []
  }

  function PronounLabelsOf(k: Option<PronounKind>): seq<Label>
  {
    match k
    case Some(Personal) => [PersonalPronoun]
    case Some(Possessive) => [PossessivePronoun]
    case None => []
  }

  function PronounLabels(lx: WordLists, w: string): seq<Label>
    requires w != []
  {
    if ClosedClass(lx, w).Some? then [] else PronounLabelsOf(PronounOf(lx, WorkingCopy(lx, w)))
  }

  function MorphLabels(lx: WordLists, w: string): seq<Label>
    requires w != []
  {
    if Fallback(lx, w)
    then Marked(EndingBits(w), EndingGroup) + Marked(PrefixBits(w), PrefixGroup) + Marked(SuffixBits(w), SuffixGroup)
    else []
  }

  /** The description list of a word, in the order the tests run. */
  function WordLabels(lx: WordLists, w: string): seq<Label>
    requires w != []
  {
    ClassLabels(ClosedClass(lx, w)) + CaseLabels(lx, w) + PronounLabels(lx, w) + MorphLabels(lx, w)
  }

  /** The reserved vector of a non-word: all zeros but a final 1. */
  const NonWordVector: seq<int> := Zeros(VectorLength - 1) + [1]

  /** The description list and the vector of a cleaned text. */
  function Classify(lx: WordLists, text: string): (d: Description)
    ensures |d.vector| == VectorLength && Binary(d.vector)
    ensures !Kinds.IsWord(text) ==>
      d.labels == [] && d.vector[IncorrectAt] == 1 && forall i :: 0 <= i < IncorrectAt ==> d.vector[i] == 0
  {
    if Kinds.IsWord(text) then WordVectorBinary(lx, text); Description(WordLabels(lx, text), WordVector(lx, text))
    else Description([], NonWordVector)
  }

  /** The three results `describe` can return. */
  datatype Output =
    | DescriptionOut(labels: seq<Label>)
    | VectorOut(vector: seq<int>)
    | BothOut(labels: seq<Label>, vector: seq<int>)

  /** A result, or the failed assertion on `mode`. */
  datatype Outcome = Ok(out: Output) | InvalidMode(mode: string)

  const Modes: seq<string> := ["description", "vector", "both"]
}
