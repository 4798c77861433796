/**
 * Where the worked tokens of `Examples` stand in the closed word lists of
 * the `Esperanto` class (lib/Esperanto.py:31-50).
 */
module Listings {
  import opened Lexicon

  /** The tokens worked through in `Examples`. */
  predicate Worked(w: string)
  {
    w in ["kaj", "min", "belan", "hundo", "ĉiun"]
  }

  /** No worked token is a preposition. */
  lemma NoPreposition(w: string)
    requires Worked(w)
    ensures w !in Prepositions
  {
  }

  /** No worked token is a particle. */
  lemma NoParticle(w: string)
    requires Worked(w)
    ensures w !in Particles
  {
  }

  /** "kaj" is a coordinating conjunction and no preposition. */
  lemma KajListing()
    ensures "kaj" !in Prepositions && "kaj" in Conjunctions
  {
    NoPreposition("kaj");
    assert Conjunctions[0] == "kaj";
  }

  /** "min" is neither a preposition nor a particle. */
  lemma MinLongLists()
    ensures "min" !in Prepositions && "min" !in Particles
  {
    NoPreposition("min");
    NoParticle("min");
  }

  /** "min" is in none of the shorter closed lists, and "mi" is a pronoun. */
  lemma MinShortLists()
    ensures "min" !in Conjunctions && "min" !in SubordinatingConjunctions && "min" !in Numerals
    ensures "mi" in Pronouns
  {
    assert Pronouns[0] == "mi";
  }

  /** "belan" is neither a preposition nor a particle. */
  lemma BelanLongLists()
    ensures "belan" !in Prepositions && "belan" !in Particles
  {
    NoPreposition("belan");
    NoParticle("belan");
  }

  /** "belan" is in none of the shorter closed lists, and "bela" is no pronoun. */
  lemma BelanShortLists()
    ensures "belan" !in Conjunctions && "belan" !in SubordinatingConjunctions && "belan" !in Numerals
    ensures "bela" !in Pronouns
  {
  }

  /** "hundo" is neither a preposition nor a particle. */
  lemma HundoLongLists()
    ensures "hundo" !in Prepositions && "hundo" !in Particles
  {
    NoPreposition("hundo");
    NoParticle("hundo");
  }

  /** "hundo" is in none of the shorter closed lists and is no pronoun. */
  lemma HundoShortLists()
    ensures "hundo" !in Conjunctions && "hundo" !in SubordinatingConjunctions && "hundo" !in Numerals
    ensures "hundo" !in Pronouns
  {
  }

  /** "ĉiun" is neither a preposition nor a particle. */
  lemma ChiunLongLists()
    ensures "ĉiun" !in Prepositions && "ĉiun" !in Particles
  {
    NoPreposition("ĉiun");
    NoParticle("ĉiun");
  }

  /** "ĉiun" is in none of the shorter closed lists, and "ĉiu" is no pronoun. */
  lemma ChiunShortLists()
    ensures "ĉiun" !in Conjunctions && "ĉiun" !in SubordinatingConjunctions && "ĉiun" !in Numerals
    ensures "ĉiu" !in Pronouns
  {
  }
}
