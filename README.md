# Esperanto word classifier — a verified model

This project models the `Esperanto` class of `lib/Esperanto.py` in Dafny.
The class is a rule-based morphological classifier for Esperanto text:

- It cleans the raw text: lower-casing, then a character filter, then trimming.
- It reports whether the text is a word, a sentence or empty.
- For a sentence it builds one child object per space-separated piece.
- For a single word, `describe` runs a fixed cascade of tests and builds two results:
  - a description list, one label per matched feature;
  - a 95-entry 0/1 vector.

The cascade's tests:

1. closed word classes: preposition, correlative ("table word"), conjunction, subordinating conjunction, particle, numeral;
2. removal of the accusative `n` and the plural `j`;
3. personal and possessive pronouns;
4. a morphological fallback that matches grammatical endings, prefixes and suffixes against the original text.

The model has three layers:

- **Lexicon, Strings, Cleaning, Kinds.** The constant tables, Python's `startswith`/`endswith`/`find`, `_clean` and the type predicates. These are pure functions, as in the source.
- **Cascade.** A declarative statement of what `describe` returns for a word: the functions `WordLabels` and `WordVector`, and `Classify` for any text.
  - The closed word lists are a parameter (`WordLists`). `Lexicon.Standard` holds the class's own lists.
  - Properties that hold for any lists are proved for any lists. The others are proved for `Standard`.
- **Entity.** The class itself.
  - The constructor cleans the text and builds the children of a sentence.
  - `Describe` runs the cascade step by step, as the source does. It grows the label list and the vector and reassigns the working copy of the word and the `spec_flag` state. It uses `while` loops with `break` for the correlative scans and `for` loops for the ending, prefix and suffix passes.
  - Each step is proved to build exactly the corresponding part of `WordLabels` and `WordVector`.

`CascadeLemmas`, `MorphologyLemmas`, `Examples` and `Listings` prove what those specification functions satisfy:

- at most one class flag is set;
- the priority order of tests 1-6;
- correlative matching;
- marker stripping;
- the inert possessive test;
- at most one ending matches;
- the incorrect flag;
- one label per set bit;
- the worked tokens "kaj", "min", "belan", "hundo" and "ĉiun".

Labels are a datatype, not the Russian phrases. An indexed label (`TablePrefix(p)`, `Affix(g, i)`) stands for entry `p` or `i` of the description table, which runs parallel to the affix table and is reversed with it.

Vector positions are flat indices into the 95-entry vector, as the code emits them:

| Positions | Content |
|---|---|
| 0 | preposition |
| 1 | correlative |
| 2-6 | correlative prefix |
| 7-15 | correlative ending |
| 16-19 | conjunction, subordinating conjunction, particle, numeral |
| 20-21 | accusative, plural |
| 22-23 | personal, possessive pronoun |
| 24-32 | endings |
| 33-42 | prefixes |
| 43-93 | suffixes |
| 94 | incorrect |

Positions are the flat indices 0-94, in the order `describe` appends them.

`type` never returns "number" or "special": `is_word`, `is_sentence` and `is_empty` already cover every string (`Kinds.TypeIsTotal`).

## Model

| member | source | states |
|---|---|---|
| Lexicon.Reversed | lib/Esperanto.py:13-35 | `[::-1]` on the prefix and suffix tables and their description lists; what the reversal does to entries is used through `Lexicon.Prefixes`/`Suffixes` and stated by MorphologyLemmas.EksPrefixes |
| Lexicon.IndexOf | lib/Esperanto.py:130-136 | `list.index`: the result holds the element, and no earlier position does |
| Strings.StartsWith | lib/Esperanto.py:120 | `str.startswith`: the first characters of the text are the prefix; used by FirstStart and PrefixSegment, which state what the scans built on it return |
| Strings.EndsWith | lib/Esperanto.py:124 | `str.endswith`: the last characters of the text are the ending; used by FirstEnd and EndingSegment, which state what the scans built on it return |
| Strings.Find | lib/Esperanto.py:239 | `str.find`: -1 exactly when the substring occurs nowhere; otherwise the first position where it occurs |
| Strings.FindPositive | lib/Esperanto.py:239 | `find(...) > 0` holds exactly when the text does not start with the substring but contains it at a later position |
| Cleaning.Lower | lib/Esperanto.py:73 | the lowercasing of one character; LowerFixesCleanChars states that it fixes every character the filter keeps |
| Cleaning.LowerAll | lib/Esperanto.py:73 | `text.lower()`, character by character; CleanIdempotent and CleanLetters state its part in `_clean` |
| Cleaning.KeepInText | lib/Esperanto.py:72 | the character class `[ALPHABET0-9 ]` of `_clean`; Clean states that its output holds only such characters |
| Cleaning.KeepInWord | lib/Esperanto.py:65 | the case-insensitive character class `[ALPHABET0-9]` of the per-word filter; CleanWordPiece states that it keeps every character of a piece |
| Cleaning.Keep | lib/Esperanto.py:72-73 | the regex deletion keeps only accepted characters of the input, and leaves an all-accepted text unchanged |
| Cleaning.KeepAppend | lib/Esperanto.py:72-73 | the regex deletion of a concatenation is the concatenation of the deletions; with Keep's own contract this fixes the deletion on every input |
| Cleaning.TrimStart | lib/Esperanto.py:73 | `strip` on the left: a suffix of the input that does not start with a space, and the input itself if that already holds |
| Cleaning.TrimStartSpaces | lib/Esperanto.py:73 | what the left strip removes is spaces only |
| Cleaning.TrimEnd | lib/Esperanto.py:73 | `strip` on the right: a prefix of the input that does not end with a space, and the input itself if that already holds |
| Cleaning.TrimEndSpaces | lib/Esperanto.py:73 | what the right strip removes is spaces only |
| Cleaning.Clean | lib/Esperanto.py:70-73 | `_clean` output holds only alphabet letters, digits and spaces, and has no leading or trailing space |
| Cleaning.StripSlice | lib/Esperanto.py:73 | stripping both ends leaves a slice `k[i..j]` of the text with only spaces before `i` and after `j` |
| Cleaning.CleanStrips | lib/Esperanto.py:70-73 | `_clean` is a slice of the lowercased, filtered text, with only spaces cut off at either end |
| Cleaning.CleanLetters | lib/Esperanto.py:70-73 | the non-spaces of `_clean` are exactly the lowercased input's alphabet letters and digits, in order |
| Cleaning.TrimStartLetters | lib/Esperanto.py:73 | the left strip keeps every non-space character, in order |
| Cleaning.TrimEndLetters | lib/Esperanto.py:73 | the right strip keeps every non-space character, in order |
| Cleaning.KeepTwice | lib/Esperanto.py:72-73 | the filter followed by deleting spaces is one filter, keeping letters and digits |
| Cleaning.LowerFixesCleanChars | lib/Esperanto.py:72-73 | every character that survives the filter is already lower case |
| Cleaning.CleanIdempotent | lib/Esperanto.py:70-73 | cleaning a cleaned text changes nothing |
| Cleaning.PieceLength | lib/Esperanto.py:66 | the length of the first piece: no space inside it, and a space or the end after it |
| Cleaning.Split | lib/Esperanto.py:66 | `split()` yields non-empty pieces without spaces, made of characters of the text |
| Cleaning.SplitRuns | lib/Esperanto.py:66 | the pieces of `split()` are the maximal runs of non-spaces: each sits in the text between spaces or its ends, they follow one another left to right, and every non-space lies in one of them |
| Cleaning.SplitRunsFrom | lib/Esperanto.py:66 | the pieces of the split of the text from a piece boundary `d` on are its maximal runs at or after `d` |
| Cleaning.SplitJoin | lib/Esperanto.py:66 | the pieces, joined in order, are the text with its spaces removed, so no character is lost or reordered |
| Cleaning.CleanWordPiece | lib/Esperanto.py:65-66 | the per-word filter and the child's own `_clean` leave a piece of a cleaned sentence unchanged |
| Cleaning.SplitPiecesAreWords | lib/Esperanto.py:64-66 | every piece of a cleaned sentence is a non-empty string of alphabet letters and digits |
| Kinds.IsEmpty | lib/Esperanto.py:85-86 | `is_empty`; Partition and TypeIsTotal state what it covers |
| Kinds.IsSentence | lib/Esperanto.py:78-79 | `is_sentence`; FindSpace states that it holds exactly for a text with a space |
| Kinds.IsWord | lib/Esperanto.py:75-76 | `is_word`; Partition states that it holds exactly for a non-empty text without a space |
| Kinds.IsNumber | lib/Esperanto.py:81-83 | `is_number`: a non-empty text of punctuation, digits and spaces; DigitsAreWords states that it never decides `type` |
| Kinds.TypeOf | lib/Esperanto.py:254-265 | the `type` property; TypeIsTotal states its three possible results |
| Kinds.FindSpace | lib/Esperanto.py:76-79 | `text.find(" ")` is not -1 exactly when the text contains a space |
| Kinds.Partition | lib/Esperanto.py:75-86 | `is_word`, `is_sentence` and `is_empty` hold for pairwise disjoint sets of texts that together cover every string |
| Kinds.TypeIsTotal | lib/Esperanto.py:254-265 | `type` is "word", "sentence" or "empty" exactly under the matching predicate, and never "number" or "special" |
| Kinds.DigitsAreWords | lib/Esperanto.py:81-86 | a digit-only text such as "829" satisfies `is_number`, yet `type` reports it as a word, so it goes through the cascade |
| Cascade.IsNumeral | lib/Esperanto.py:175 | test 6: a listed numeral, or a text of more than four letters ending in "dek" or "cent"; ClosedClassPriority states when it decides the class |
| Cascade.ClosedClass | lib/Esperanto.py:105-180 | the outcome of tests 1-6, first match wins; ClosedClassPriority and ClosedFlagSetIff state it against the lists |
| Cascade.MinorClass | lib/Esperanto.py:142-180 | the outcome of tests 3-6; ConjunctionClass and SubordinatingClass state its first two cases |
| Cascade.LastClass | lib/Esperanto.py:162-180 | the outcome of tests 5-6; ClosedClassPriority states its cases |
| Cascade.PronounOf | lib/Esperanto.py:200-212 | the pronoun test on the working copy; PersonalPronounIff and PossessiveNeverFires state its outcomes |
| Cascade.Fallback | lib/Esperanto.py:214-220 | the fallback runs exactly when no closed class and no pronoun matched; IncorrectIff and NoFallbackNoMorphology state what follows from it |
| Cascade.WordLabels | lib/Esperanto.py:98-245 | the labels `describe` collects for a word, in order; DescribeWord builds them, and ClosedClassLabelsOnly, FallbackLabels and MarkedSpec state their content |
| Cascade.FirstHit | lib/Esperanto.py:119-126 | the `for ... break` scan: the first position that hits, or none when no position hits |
| Cascade.FirstHitIndex | lib/Esperanto.py:130-136 | `index` of the entry found by the scan is the scan's position, when equal entries hit alike |
| Cascade.TableMatch | lib/Esperanto.py:117-127 | a correlative match names valid positions of the prefix and ending tables |
| Cascade.StripMarkers | lib/Esperanto.py:186-198 | removing a final `n`, then a final `j`: the stem is non-empty; stem, `j` and `n` rebuild the token; the accusative flag says the token ended in `n` |
| Cascade.WorkingCopy | lib/Esperanto.py:183-198 | the working copy the pronoun test sees is never empty |
| Cascade.TableBits | lib/Esperanto.py:127-140 | the correlative segment has 15 entries, each 0 or 1 |
| Cascade.ClosedBits | lib/Esperanto.py:105-180 | the closed-class segment has 20 entries, each 0 or 1 |
| Cascade.CaseBits | lib/Esperanto.py:182-198 | the marker segment has 2 entries, each 0 or 1 |
| Cascade.PronounBits | lib/Esperanto.py:200-212 | the pronoun segment has 2 entries, each 0 or 1 |
| Cascade.MorphBits | lib/Esperanto.py:214-244 | the fallback segment has 70 entries, each 0 or 1 |
| Cascade.WordVector | lib/Esperanto.py:98-245 | the vector of a word has exactly 95 entries |
| Cascade.WordVectorBinary | lib/Esperanto.py:98-246 | every entry of a word's vector is 0 or 1 |
| Cascade.Marked | lib/Esperanto.py:222-244 | each label of a group names a set bit of that group, and each set bit has its label |
| Cascade.Classify | lib/Esperanto.py:90-245 | 95 entries, each 0 or 1; for a non-word, no labels and 94 zeros followed by a 1 |
| Entity.Esperanto.constructor | lib/Esperanto.py:61-69 | the text is `_clean` of the input; a text with a space, that is a sentence (`Kinds.Partition`), gets one child per piece, in order, child `i` holding piece `i` and no word list of its own, all children distinct objects; any other text gets no word list |
| Entity.Esperanto.SetWords | lib/Esperanto.py:63-68 | the second half of `__init__` keeps the text and sets the word list from it: one new child per piece of a sentence, all distinct, none otherwise |
| Entity.Esperanto.Children | lib/Esperanto.py:63-68 | the `is_sentence` branch: for a text with a space, one new child per piece, in order, child `i` holding piece `i`, no two children the same object; for any other text no word list |
| Entity.Esperanto.Words | lib/Esperanto.py:66 | the list comprehension builds one new child per piece, in order, each holding its piece unchanged by the filter and `_clean`, no two children the same object |
| Entity.Esperanto.Word | lib/Esperanto.py:66 | one element of the comprehension: a new object whose text is the piece and which has no word list |
| Entity.Esperanto.Describe | lib/Esperanto.py:88-252 | an invalid mode fails, exactly for modes outside the three; otherwise the labels, the vector or both of `Classify` on the class's lists |
| Entity.Esperanto.DescribeWord | lib/Esperanto.py:98-245 | the step-by-step cascade builds exactly `WordLabels` and `WordVector` of the text |
| Entity.ClassTests | lib/Esperanto.py:103-212 | tests 1-8 build the labels and positions 0-23 of the word's description; the flag ends up raised exactly when the fallback does not run |
| Entity.MajorClassOf | lib/Esperanto.py:105-140 | bridge from MajorClassTests to the spec: `ClosedClass` and its correlative segment `TableBits` unfolded at tests 1-2 |
| Entity.ClosedClassTests | lib/Esperanto.py:105-180 | tests 1-6 set the flag exactly when a closed class matched and emit that class's labels and the 20-entry segment |
| Entity.MajorClassTests | lib/Esperanto.py:105-140 | tests 1-2: the flag says a preposition or a correlative matched; the matching labels and the first 16 entries |
| Entity.MinorClassOf | lib/Esperanto.py:142-180 | bridge from MinorClassTests to the spec: when tests 1-2 fail, `ClosedClass` is `MinorClass` |
| Entity.MinorClassTests | lib/Esperanto.py:142-180 | tests 3-6 after tests 1-2: the flag says some closed class matched; labels only when tests 1-2 did not match |
| Entity.ConjunctionTests | lib/Esperanto.py:142-160 | tests 3-4 run only while no earlier test matched: the flag is raised by a conjunction or a subordinating conjunction (`Cascade.MinorClass`), the two bits say which, and the label is emitted only by the test that raised the flag |
| Entity.ParticleNumeralTests | lib/Esperanto.py:162-180 | tests 5-6 run only while no earlier test matched: the flag ends up raised exactly when a particle or a numeral matched (`Cascade.LastClass`), the two bits say which, and its label is emitted |
| Entity.PrefixScan | lib/Esperanto.py:119-122 | the first correlative prefix the token starts with, or "" when there is none |
| Entity.EndingScan | lib/Esperanto.py:123-126 | the first correlative ending the token ends with, or "" when there is none |
| Entity.TableWordTest | lib/Esperanto.py:117-140 | the correlative test succeeds exactly on a correlative match and emits its three labels and its one-hot segment, or 15 zeros |
| Entity.TableEntriesNonEmpty | lib/Esperanto.py:52-56 | no correlative prefix or ending is empty, so an empty scan result means nothing was found |
| Entity.ScansDecideTableMatch | lib/Esperanto.py:119-131 | the scans' results pass the test `prefix and ending and word == prefix + ending` exactly on a correlative match, at the matched indices |
| Entity.MarkerTests | lib/Esperanto.py:182-198 | after a class match or on "j", "n" or "jn": two zeros, no label, the token unchanged; otherwise the working copy is the token without its final `n` and then its final `j`, the two bits say which were removed, and the labels are accusative if an `n` was removed, then exactly one of plural and singular |
| Entity.CaseParts | lib/Esperanto.py:182-198 | bridge from MarkerTests to the spec: `CaseBits`, `CaseLabels` and `WorkingCopy` unfolded into the two cases the step distinguishes |
| Entity.PronounTests | lib/Esperanto.py:200-212 | the pronoun test raises the flag exactly when a pronoun matched the working copy, and emits its label and bits |
| Entity.FallbackPasses | lib/Esperanto.py:219-244 | the fallback emits the ending, prefix and suffix bits of the original text, one label per set bit, and `is_incorrect` 1 exactly when no ending bit is set |
| Entity.EndingPass | lib/Esperanto.py:221-229 | the ending loop emits one bit per ending and one label per set bit; `is_incorrect` is 1 exactly when no bit was set |
| Entity.PrefixPass | lib/Esperanto.py:231-237 | the prefix loop emits one bit per prefix and one label per set bit |
| Entity.SuffixPass | lib/Esperanto.py:238-244 | the suffix loop emits one bit per entry of the suffix table, set exactly when `find` reports a position after 0, and one label per set bit |
| CascadeLemmas.Layout | lib/Esperanto.py:98-245 | where each segment sits in the 95-entry vector |
| CascadeLemmas.ClosedFlags | lib/Esperanto.py:105-180 | bridge for the lemmas about flags: the closed-class segment `ClosedBits` unfolded into one flag per class at positions 0, 1 and 16-19 |
| CascadeLemmas.FlagsOf | lib/Esperanto.py:103-212 | the eight class flags exclude one another in any vector built from one class and one pronoun outcome |
| CascadeLemmas.PronounSegmentOf | lib/Esperanto.py:200-212 | bridge for the lemmas about positions 22-23: `PronounBits` unfolded into `PronounSegment` of the class and the pronoun outcome |
| CascadeLemmas.ClassFlagsExclusive | lib/Esperanto.py:103-212 | at most one of positions 0, 1, 16-19, 22 and 23 is 1 |
| CascadeLemmas.ClosedFlagSetIff | lib/Esperanto.py:105-180 | some closed-class flag is set exactly when a class matched |
| CascadeLemmas.ZeroTail | lib/Esperanto.py:182-245 | a vector whose later segments are zero is zero from position 20 or 24 on |
| CascadeLemmas.NoFallbackNoMorphology | lib/Esperanto.py:214-219 | bridge: without `Fallback`, the spec's fallback segment, incorrect flag and labels unfold to zeros and nothing |
| CascadeLemmas.ClosedClassSilencesRest | lib/Esperanto.py:103-219 | a closed-class flag is set exactly when tests 1-6 matched, and then positions 20-94 are all 0 |
| CascadeLemmas.PronounSilencesMorphology | lib/Esperanto.py:200-219 | a set pronoun flag makes positions 24-94 all 0, while 20-21 may still be set |
| CascadeLemmas.PersonalPronounIff | lib/Esperanto.py:200-206 | the personal-pronoun flag is set exactly when tests 1-6 failed and the stripped working copy is a listed pronoun |
| CascadeLemmas.NoPossessive | lib/Esperanto.py:207-210 | the one-character tail `word[-1:]` is no pronoun of two or more characters, so the possessive outcome never occurs |
| CascadeLemmas.PossessiveNeverFires | lib/Esperanto.py:207-210 | with pronouns of two or more characters the possessive flag is always 0, since `word[-1:]` has one character |
| CascadeLemmas.StandardPronounsAreLong | lib/Esperanto.py:40 | every listed pronoun has at least two characters |
| CascadeLemmas.FirstHitUnique | lib/Esperanto.py:119-126 | a hit with no hit before it is the one the scan finds |
| CascadeLemmas.FirstStart | lib/Esperanto.py:119-122 | the prefix scan stops at entry `p` exactly when the token starts with it and with no earlier entry |
| CascadeLemmas.FirstEnd | lib/Esperanto.py:123-126 | the ending scan stops at entry `e` exactly when the token ends with it and with no earlier entry |
| CascadeLemmas.TableMatchSpec | lib/Esperanto.py:117-127 | a correlative match at `(p, e)` exactly when `p` is the first prefix, `e` the first ending, and the token is their concatenation |
| CascadeLemmas.OnesOneHot | lib/Esperanto.py:132-137 | a one-hot group holds exactly one 1 |
| CascadeLemmas.TableSegment | lib/Esperanto.py:127-140 | positions 1-15: the flag and two one-hot groups at the matched indices, or all zeros |
| CascadeLemmas.ClosedClassLabelsOnly | lib/Esperanto.py:105-219 | after a closed-class match the description holds that class's labels alone |
| CascadeLemmas.TableClass | lib/Esperanto.py:105-140 | bridge: `ClosedClass` unfolded at test 2, a correlative exactly when the token is no preposition and `TableMatch` holds |
| CascadeLemmas.TableWordBits | lib/Esperanto.py:117-140 | position 1 is set exactly for a non-preposition correlative; then one 1 at the matched prefix in 2-6, one at the matched ending in 7-15, and the three labels; otherwise 1-15 are 0 |
| CascadeLemmas.ClosedFlagValues | lib/Esperanto.py:105-180 | positions 0 and 16-19 each say whether their class matched |
| CascadeLemmas.ClosedClassPriority | lib/Esperanto.py:105-180 | each closed-class flag is set exactly when its list matches and no earlier test did; the numeral flag also covers compounds of more than four letters ending in "dek" or "cent" |
| CascadeLemmas.TableMatchForm | lib/Esperanto.py:127 | a correlative is its prefix followed by its ending |
| CascadeLemmas.OverlapListed | lib/Esperanto.py:37-47 | "dum" and "ĝis" stand both in the preposition list and in the subordinating-conjunction list |
| CascadeLemmas.PrepositionWins | lib/Esperanto.py:105-108 | a token the preposition list holds is classified as a preposition, whatever other list also holds it |
| CascadeLemmas.PrepositionOverlap | lib/Esperanto.py:37-47 | "dum" and "ĝis" are listed as subordinating conjunctions too, but are classified as prepositions |
| CascadeLemmas.ConjunctionClass | lib/Esperanto.py:142-150 | a token that tests 1-2 reject and the conjunction list holds is a conjunction |
| CascadeLemmas.SubordinatingClass | lib/Esperanto.py:152-160 | a token that tests 1-3 reject and the subordinating list holds is a subordinating conjunction |
| CascadeLemmas.ParticleOverlapUnlisted | lib/Esperanto.py:37-45 | "kvazaŭ" and "apenaŭ" are neither prepositions nor conjunctions |
| CascadeLemmas.ParticleOverlapListed | lib/Esperanto.py:46-50 | "kvazaŭ" and "apenaŭ" are listed both as subordinating conjunctions and as particles |
| CascadeLemmas.ParticleOverlap | lib/Esperanto.py:152-170 | "kvazaŭ" and "apenaŭ", though listed as particles, are classified as subordinating conjunctions |
| CascadeLemmas.NoTablePrefix | lib/Esperanto.py:52 | a token whose first letters begin no correlative prefix starts with none |
| CascadeLemmas.NoTableWord | lib/Esperanto.py:119-127 | a token starting with no correlative prefix is no correlative |
| CascadeLemmas.MarkedNoTableWord | lib/Esperanto.py:56 | no correlative ending ends in `n` or `j`, so accusative or plural correlatives such as "ĉiun" are never recognised |
| CascadeLemmas.TableEndingLetters | lib/Esperanto.py:56 | every correlative ending is non-empty and ends in neither `n` nor `j` |
| CascadeLemmas.NoTableEnding | lib/Esperanto.py:123-127 | a token ending with no correlative ending is no correlative |
| CascadeLemmas.Unclassified | lib/Esperanto.py:105-180 | tests 1-6 all fail on a token that no list holds, that is no correlative and no numeral |
| CascadeLemmas.StripMarkersSpec | lib/Esperanto.py:186-198 | the accusative flag is "ends in n"; the plural flag is "what is left ends in j" |
| CascadeLemmas.CaseBitsSpec | lib/Esperanto.py:182-198 | the marker bits and case labels: zero and empty when a class matched or the token is bare; otherwise the accusative bit says "ends in n", the plural bit says "what is left ends in j", and exactly one of plural and singular is labelled |
| CascadeLemmas.CaseSegment | lib/Esperanto.py:182-198 | positions 20-21 and the case labels: zero and empty when a class matched or the token is "j", "n" or "jn"; otherwise the two marker tests, with exactly one of plural and singular labelled |
| MorphologyLemmas.MorphLayout | lib/Esperanto.py:220-244 | the fallback's three groups sit at 24-32, 33-42 and 43-93 and are computed on the original text |
| MorphologyLemmas.EndingSegment | lib/Esperanto.py:222-229 | bit 24+i is set exactly when the original text ends with ending i |
| MorphologyLemmas.PrefixSegment | lib/Esperanto.py:231-237 | bit 33+i is set exactly when the text starts with entry i of the reversed prefix table |
| MorphologyLemmas.SuffixSegment | lib/Esperanto.py:238-244 | bit 43+i is set exactly when the text does not start with suffix i but contains it later |
| MorphologyLemmas.EndingFreeRow | lib/Esperanto.py:9 | no grammatical ending ends with another given one |
| MorphologyLemmas.EndingsAreEndingFree | lib/Esperanto.py:9 | no grammatical ending ends another |
| MorphologyLemmas.AtMostOneEndingOf | lib/Esperanto.py:222-229 | a text ends with at most one grammatical ending |
| MorphologyLemmas.AtMostOneEnding | lib/Esperanto.py:222-229 | at most one bit of positions 24-32 is set |
| MorphologyLemmas.IncorrectIff | lib/Esperanto.py:219-245 | position 94 is 1 exactly when the fallback ran and no ending bit is set |
| MorphologyLemmas.NoEndingAfterMarker | lib/Esperanto.py:222-229 | a text ending in `n` or `j` sets no ending bit |
| MorphologyLemmas.MarkerLetter | lib/Esperanto.py:182-198 | a set marker bit means no class matched and the original text ends in `n` or `j` |
| MorphologyLemmas.NoPronounFallback | lib/Esperanto.py:200-220 | with long pronouns, a working copy that is no listed pronoun leaves the fallback to run |
| MorphologyLemmas.MarkedWordIsIncorrect | lib/Esperanto.py:182-245 | a word with a removed marker that is no pronoun is always flagged incorrect, because endings are matched on the unstripped text |
| MorphologyLemmas.EksPrefixes | lib/Esperanto.py:13 | in the reversed prefix table "eks" is entry 6 and "ek" entry 7 |
| MorphologyLemmas.EksStartsBoth | lib/Esperanto.py:13 | a text starting with "eks" starts with both the "eks" and the "ek" entry of the reversed prefix table |
| MorphologyLemmas.EksSetsBoth | lib/Esperanto.py:231-237 | a text starting with "eks" sets both the "eks" and the "ek" prefix bits |
| MorphologyLemmas.MarkedSpec | lib/Esperanto.py:222-244 | one label per set bit, in increasing position order |
| MorphologyLemmas.FallbackLabelCount | lib/Esperanto.py:220-244 | the fallback appends exactly as many labels as positions 24-93 hold ones |
| Examples.KajUnder | lib/Esperanto.py:142-150 | "kaj", under any lists placing it as the class does, yields the conjunction label only, position 16 set and 20-94 zero |
| Examples.Kaj | lib/Esperanto.py:142-150 | "kaj": the conjunction label only, position 16 set, positions 20-94 zero |
| Examples.MinUnder | lib/Esperanto.py:182-212 | "min", under any lists placing it as the class does, yields accusative, singular and personal pronoun, with 20 and 22 set and 24-94 zero |
| Examples.Min | lib/Esperanto.py:182-212 | "min": accusative, singular, personal pronoun; positions 20 and 22 set; 24-94 zero |
| Examples.FallbackLabels | lib/Esperanto.py:98-244 | when the fallback runs, the labels are the case labels followed by the fallback's |
| Examples.BelanStripped | lib/Esperanto.py:182-198 | "belan" matches no class, and its working copy is "bela", labelled accusative and singular |
| Examples.BelanUnder | lib/Esperanto.py:182-245 | "belan", under any lists placing it as the class does, is accusative and singular, with no ending bit, and is flagged incorrect |
| Examples.Belan | lib/Esperanto.py:182-245 | "belan": accusative, singular, no ending bit, position 94 set |
| Examples.SingleEnding | lib/Esperanto.py:222-229 | a text ending with ending i sets bit i of the ending group and no other |
| Examples.HundoStripped | lib/Esperanto.py:182-198 | "hundo" matches no class and keeps its working copy |
| Examples.HundoEnding | lib/Esperanto.py:222-229 | "hundo" ends with the "o" ending and no other |
| Examples.HundoPrefixes | lib/Esperanto.py:231-237 | "hundo" starts with no entry of the prefix table |
| Examples.HundoSuffixes | lib/Esperanto.py:238-244 | no entry of the suffix table occurs in "hundo" after position 0 |
| Examples.HundoUnder | lib/Esperanto.py:214-245 | "hundo", under any lists placing it as the class does, sets the "o" ending bit alone, no prefix or suffix bit, is not flagged incorrect, and is described as singular and noun only |
| Examples.Hundo | lib/Esperanto.py:214-245 | "hundo": the "o" ending bit alone, positions 33-94 zero, and the labels singular and the "o" ending |
| Examples.ChiunStripped | lib/Esperanto.py:117-198 | "ĉiun" matches no class, and its working copy is "ĉiu" |
| Examples.ChiunUnder | lib/Esperanto.py:117-245 | "ĉiun", under any lists placing it as the class does, is no correlative, is accusative, and is flagged incorrect |
| Examples.Chiun | lib/Esperanto.py:117-245 | "ĉiun": position 1 zero, position 20 set, position 94 set |
| Listings.NoPreposition | lib/Esperanto.py:37-38 | none of "kaj", "min", "belan", "hundo" and "ĉiun" is a preposition |
| Listings.NoParticle | lib/Esperanto.py:49-50 | none of "kaj", "min", "belan", "hundo" and "ĉiun" is a particle |
| Listings.KajListing | lib/Esperanto.py:37-45 | "kaj" is a conjunction and no preposition |
| Listings.MinLongLists | lib/Esperanto.py:37-50 | "min" is neither a preposition nor a particle |
| Listings.MinShortLists | lib/Esperanto.py:40-47 | "min" is in no shorter closed list, and "mi" is a pronoun |
| Listings.BelanLongLists | lib/Esperanto.py:37-50 | "belan" is neither a preposition nor a particle |
| Listings.BelanShortLists | lib/Esperanto.py:40-47 | "belan" is in no shorter closed list, and "bela" is no pronoun |
| Listings.HundoLongLists | lib/Esperanto.py:37-50 | "hundo" is neither a preposition nor a particle |
| Listings.HundoShortLists | lib/Esperanto.py:40-47 | "hundo" is in no shorter closed list and is no pronoun |
| Listings.ChiunLongLists | lib/Esperanto.py:37-50 | "ĉiun" is neither a preposition nor a particle |
| Listings.ChiunShortLists | lib/Esperanto.py:40-47 | "ĉiun" is in no shorter closed list, and "ĉiu" is no pronoun |

## Left out

- The numpy `float32` arrays (lib/Esperanto.py:94, 96, 246) are modelled as sequences of integers 0 and 1. No floating-point arithmetic is involved.
- Cleaning.Lower: only ASCII capitals and the six Esperanto capitals are lowered. Full Unicode `str.lower()` would also map a few other characters into the alphabet, for example the Kelvin sign; this model leaves them unchanged.
- The `re` engine is not modelled. Each character class of the source (lib/Esperanto.py:65, 72, 82) is modelled by per-character membership. The `IGNORECASE` flag of the per-word filter is modelled by lowering before the test.
- The `.replace(" +", "")` call (lib/Esperanto.py:73) is not modelled. The two-character literal " +" cannot survive the filter before it, so the call never changes anything.
- `__str__`, `__repr__` and the `__main__` demo (lib/Esperanto.py:267-278) print text and hold no classification logic.
- Running with assertions disabled (`python -O`) is not modelled. In that mode an invalid mode falls through and `describe` returns `None`. The model keeps the assertion and returns `InvalidMode`.
- Default arguments are not modelled: `describe(mode="description")` (lib/Esperanto.py:88) and `__init__(self, text="")` (lib/Esperanto.py:61). `Describe` always takes its mode and the constructor always takes its text.
- The Russian label text is not modelled, only which entry of which description table a label refers to.
- The assignment `self.word_list = None` (lib/Esperanto.py:68) misspells the attribute. A non-sentence therefore has no `words_list` attribute at all. The model represents that as `wordsList == None`.
- Entity.Esperanto.constructor: does not restate that the children are new objects. Entity.Esperanto.SetWords and Entity.Esperanto.Children state it relative to their own call.
- Entity.Esperanto.Describe: the word branch is stated for the class's own lists, `Standard`. Properties that depend on the contents of those lists are proved for `Standard` only. The concrete tokens "kaj", "min", "belan", "hundo" and "ĉiun" are covered this way; other concrete tokens are not computed.
