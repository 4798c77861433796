/**
 * Text normalisation of the `Esperanto` class: `_clean` (lib/Esperanto.py:70-73), the
 * whitespace split of `__init__` and the per-word character filter (lib/Esperanto.py:65-66).
 */
module Cleaning {
  import opened Lexicon

  predicate IsDigit(c: char)
  {
    '0' <= c <= '9'
  }

  /**
   * Lowercasing of one character: ASCII capitals and the six Esperanto capitals
   * map to their small letters, every other character is left unchanged.
   */
  function Lower(c: char): char
  {
    if 'A' <= c <= 'Z' then (c as int + 32) as char
    else if c == 'Ĉ' || c == 'Ĝ' || c == 'Ĥ' || c == 'Ĵ' || c == 'Ŝ' || c == 'Ŭ' then (c as int + 1) as char
    else c
  }

  /** `text.lower()`, character by character. */
  function LowerAll(s: string): string
  {
    seq(|s|, i requires 0 <= i < |s| => Lower(s[i]))
  }

  /** Characters that survive the filter `[^ALPHABET0-9 ]` of `_clean`. */
  predicate KeepInText(c: char)
  {
    c in Alphabet || IsDigit(c) || c == ' '
  }

  /** Characters that survive the case-insensitive filter `[^ALPHABET0-9]` applied to each word. */
  predicate KeepInWord(c: char)
  {
    Lower(c) in Alphabet || IsDigit(c)
  }

  predicate NotSpace(c: char)
  {
    c != ' '
  }

  /** A text made of spaces only. */
  predicate Spaces(p: string)
  {
    forall m :: 0 <= m < |p| ==> p[m] == ' '
  }

  /** A regular-expression substitution that deletes every character `ok` rejects. */
  function Keep(s: string, ok: char -> bool): (r: string)
    ensures forall c :: c in r ==> c in s && ok(c)
    ensures (forall c :: c in s ==> ok(c)) ==> r == s
  {
    if s == [] then [] else (if ok(s[0]) then [s[0]] else []) + Keep(s[1..], ok)
  }

  lemma {:induction false} KeepAppend(a: string, b: string, ok: char -> bool)
    ensures Keep(a + b, ok) == Keep(a, ok) + Keep(b, ok)
  {
    if a == [] {
      assert a + b == b;
    } else {
      assert (a + b)[0] == a[0];
      assert (a + b)[1..] == a[1..] + b;
      KeepAppend(a[1..], b, ok);
    }
  }

  /** Removes leading spaces. */
  function TrimStart(s: string): (r: string)
    ensures |r| <= |s| && r == s[|s| - |r|..]
    ensures r != [] ==> r[0] != ' '
    ensures (s == [] || s[0] != ' ') ==> r == s
  {
    if s != [] && s[0] == ' ' then TrimStart(s[1..]) else s
  }

  /** What `TrimStart` removes is spaces only. */
  lemma {:induction false} TrimStartSpaces(s: string)
    ensures Spaces(s[..|s| - |TrimStart(s)|])
  {
    if s != [] && s[0] == ' ' {
      TrimStartSpaces(s[1..]);
      SpacesBefore(s, |s| - |TrimStart(s)|);
    }
  }

  lemma SpacesBefore(s: string, n: int)
    requires 1 <= n <= |s| && s[0] == ' ' && Spaces(s[1..][..n - 1])
    ensures Spaces(s[..n])
  {
    forall m | 1 <= m < n ensures s[..n][m] == ' ' {
      assert s[..n][m] == s[1..][..n - 1][m - 1];
    }
  }

  /** Removes trailing spaces. */
  function TrimEnd(s: string): (r: string)
    ensures |r| <= |s| && r == s[..|r|]
    ensures r != [] ==> r[|r| - 1] != ' '
    ensures (s == [] || s[|s| - 1] != ' ') ==> r == s
  {
    if s != [] && s[|s| - 1] == ' ' then TrimEnd(s[..|s| - 1]) else s
  }

  /** What `TrimEnd` removes is spaces only. */
  lemma {:induction false} TrimEndSpaces(s: string)
    ensures Spaces(s[|TrimEnd(s)|..])
  {
    if s != [] && s[|s| - 1] == ' ' {
      TrimEndSpaces(s[..|s| - 1]);
      SpacesAfter(s, |TrimEnd(s)|);
    }
  }

  lemma SpacesAfter(s: string, n: int)
    requires 0 <= n < |s| && s[|s| - 1] == ' ' && Spaces(s[..|s| - 1][n..])
    ensures Spaces(s[n..])
  {
    forall m | 0 <= m < |s| - 1 - n ensures s[n..][m] == ' ' {
      assert s[n..][m] == s[..|s| - 1][n..][m];
    }
  }

  /**
   * `_clean`: lowercase, delete every character outside the alphabet, the digits
   * and the space, and strip the spaces at both ends. After the filter the space
   * is the only whitespace left, so stripping spaces is `str.strip()`.
   */
  function Clean(raw: string): (t: string)
    ensures forall c :: c in t ==> KeepInText(c)
    ensures t != [] ==> t[0] != ' ' && t[|t| - 1] != ' '
  {
    var kept := Keep(LowerAll(raw), KeepInText);
    TrimKeepsChars(kept);
    TrimEnd(TrimStart(kept))
  }

  /** Stripping only removes characters. */
  lemma TrimKeepsChars(s: string)
    ensures forall c :: c in TrimEnd(TrimStart(s)) ==> c in s
  {
    var l := TrimStart(s);
    forall c | c in TrimEnd(l) ensures c in s {
      assert c in l;
    }
  }

  /** `t` is `k[i..j]` and everything of `k` outside that slice is a space. */
  predicate Stripped(k: string, i: int, j: int, t: string)
  {
    0 <= i <= j <= |k| && t == k[i..j] && Spaces(k[..i]) && Spaces(k[j..])
  }

  /**
   * `_clean` is the filtered, lowercased text with its outer spaces cut off and
   * nothing else: a slice of it whose cut-off parts are all spaces.
   */
  lemma CleanStrips(raw: string)
    ensures exists i, j :: Stripped(Keep(LowerAll(raw), KeepInText), i, j, Clean(raw))
  {
    var k := Keep(LowerAll(raw), KeepInText);
    assert Clean(raw) == TrimEnd(TrimStart(k));
    var i, j := StripSlice(k);
  }

  /** Stripping both ends cuts a slice out of `k` whose surroundings are spaces. */
  lemma StripSlice(k: string) returns (i: int, j: int)
    ensures Stripped(k, i, j, TrimEnd(TrimStart(k)))
  {
    var l := TrimStart(k);
    var t := TrimEnd(l);
    i, j := |k| - |l|, |k| - |l| + |t|;
    TrimStartSpaces(k);
    TrimEndSpaces(l);
    assert t == k[i..j] && l[|t|..] == k[j..] by {
      assert l == k[i..];
      assert t == l[..|t|];
    }
  }

  /** A letter or digit of a cleaned text: the characters `_clean` keeps, less the space. */
  predicate KeepInTextNotSpace(c: char)
  {
    KeepInText(c) && c != ' '
  }

  /** The non-space characters of `_clean`'s output are those of the input that are letters or digits once lowered, in order. */
  lemma CleanLetters(raw: string)
    ensures Keep(Clean(raw), NotSpace) == Keep(LowerAll(raw), KeepInTextNotSpace)
  {
    var k := Keep(LowerAll(raw), KeepInText);
    TrimStartLetters(k);
    TrimEndLetters(TrimStart(k));
    KeepTwice(LowerAll(raw));
  }

  /** Removing leading spaces keeps every non-space character. */
  lemma {:induction false} TrimStartLetters(s: string)
    ensures Keep(TrimStart(s), NotSpace) == Keep(s, NotSpace)
  {
    if s != [] && s[0] == ' ' {
      TrimStartLetters(s[1..]);
    }
  }

  /** Removing trailing spaces keeps every non-space character. */
  lemma {:induction false} TrimEndLetters(s: string)
    ensures Keep(TrimEnd(s), NotSpace) == Keep(s, NotSpace)
  {
    if s != [] && s[|s| - 1] == ' ' {
      TrimEndLetters(s[..|s| - 1]);
      KeepLast(s, NotSpace);
    }
  }

  /** Deleting characters, seen from the last character. */
  lemma KeepLast(s: string, ok: char -> bool)
    requires s != []
    ensures Keep(s, ok) == Keep(s[..|s| - 1], ok) + (if ok(s[|s| - 1]) then [s[|s| - 1]] else [])
  {
    var init, last := s[..|s| - 1], s[|s| - 1];
    assert s == init + [last];
    KeepAppend(init, [last], ok);
    assert Keep([last], ok) == (if ok(last) then [last] else []) + Keep([], ok);
  }

  /** The filter of `_clean` followed by deleting spaces is one filter. */
  lemma {:induction false} KeepTwice(s: string)
    ensures Keep(Keep(s, KeepInText), NotSpace) == Keep(s, KeepInTextNotSpace)
  {
    if s != [] {
      KeepTwice(s[1..]);
      KeepAppend(if KeepInText(s[0]) then [s[0]] else [], Keep(s[1..], KeepInText), NotSpace);
    }
  }

  /** Lowercasing leaves the characters of a cleaned text as they are. */
  lemma LowerFixesCleanChars(c: char)
    requires KeepInText(c)
    ensures Lower(c) == c
  {
    if c in Alphabet {
      var i :| 0 <= i < |Alphabet| && Alphabet[i] == c;
      AlphabetIsLower(i);
    }
  }

  lemma AlphabetIsLower(i: nat)
    requires i < |Alphabet|
    ensures Lower(Alphabet[i]) == Alphabet[i]
  {
  }

  /** Cleaning a cleaned text changes nothing. */
  lemma CleanIdempotent(raw: string)
    ensures Clean(Clean(raw)) == Clean(raw)
  {
    var t := Clean(raw);
    forall i | 0 <= i < |t| ensures LowerAll(t)[i] == t[i] {
      LowerFixesCleanChars(t[i]);
    }
    assert LowerAll(t) == t;
    assert Keep(t, KeepInText) == t;
    assert TrimStart(t) == t && TrimEnd(t) == t;
  }

  /** Every character of `p` occurs in `s`. */
  predicate CharsFrom(p: string, s: string)
  {
    forall c :: c in p ==> c in s
  }

  /** The length of the leading run of non-space characters. */
  function PieceLength(s: string): (n: nat)
    ensures n <= |s|
    ensures forall i :: 0 <= i < n ==> s[i] != ' '
    ensures n < |s| ==> s[n] == ' '
  {
    if s == [] || s[0] == ' ' then 0 else 1 + PieceLength(s[1..])
  }

  /** `s.split()` on a text whose only whitespace is the space: the maximal runs of non-spaces, in order. */
  function Split(s: string): (ws: seq<string>)
    ensures forall i :: 0 <= i < |ws| ==> ws[i] != []
    ensures forall i :: 0 <= i < |ws| ==> ' ' !in ws[i] && CharsFrom(ws[i], s)
    decreases |s|
  {
    if s == [] then []
    else if s[0] == ' ' then
      assert forall c :: c in s[1..] ==> c in s;
      Split(s[1..])
    else
      var n := PieceLength(s);
      assert ' ' !in s[..n] && CharsFrom(s[..n], s);
      assert forall c :: c in s[n..] ==> c in s;
      [s[..n]] + Split(s[n..])
  }

  function Concat(ws: seq<string>): string
  {
    if ws == [] then [] else ws[0] + Concat(ws[1..])
  }

  /** The pieces of a split, put back together, are the text without its spaces. */
  lemma {:induction false} SplitJoin(s: string)
    ensures Concat(Split(s)) == Keep(s, NotSpace)
    decreases |s|
  {
    if s == [] {
    } else if s[0] == ' ' {
      SplitJoin(s[1..]);
    } else {
      var n := PieceLength(s);
      SplitJoin(s[n..]);
      assert s == s[..n] + s[n..];
      KeepAppend(s[..n], s[n..], NotSpace);
      assert Keep(s[..n], NotSpace) == s[..n];
    }
  }

  /** `p` occurs in `s` at `k` as a whole run: a space or an end of `s` on either side of it. */
  predicate RunAt(s: string, p: string, k: int)
  {
    0 <= k && k + |p| <= |s| && s[k..k + |p|] == p &&
    (k == 0 || s[k - 1] == ' ') && (k + |p| == |s| || s[k + |p|] == ' ')
  }

  /**
   * `ps` are runs of `s` starting at the positions `ks`, at or after `d`, left to right
   * with a gap between neighbours, and together they cover every non-space of `s[d..]`.
   */
  predicate RunsFrom(s: string, d: nat, ps: seq<string>, ks: seq<int>)
  {
    |ks| == |ps| &&
    (forall i :: 0 <= i < |ps| ==> RunAt(s, ps[i], ks[i]) && d <= ks[i]) &&
    (forall i, j :: 0 <= i < j < |ps| ==> ks[i] + |ps[i]| < ks[j]) &&
    (forall m {:trigger Covered(ps, ks, m)} :: d <= m < |s| && s[m] != ' ' ==> Covered(ps, ks, m))
  }

  /** Position `m` lies inside one of the runs `ps` placed at `ks`. */
  predicate Covered(ps: seq<string>, ks: seq<int>, m: int)
    requires |ks| == |ps|
  {
    exists i :: 0 <= i < |ps| && ks[i] <= m < ks[i] + |ps[i]|
  }

  /**
   * `s.split()` cuts `s` into its maximal runs of non-spaces: each piece is space-free
   * (`Split`'s own contract), sits between spaces or the ends of `s`, the pieces follow
   * one another left to right, and no non-space is left out.
   */
  lemma SplitRuns(s: string)
    ensures exists ks :: RunsFrom(s, 0, Split(s), ks)
  {
    assert s[0..] == s;
    var ks := SplitRunsFrom(s, 0);
  }

  lemma {:induction false} SplitRunsFrom(s: string, d: nat) returns (ks: seq<int>)
    requires d <= |s| && (d == 0 || s[d - 1] == ' ')
    ensures RunsFrom(s, d, Split(s[d..]), ks)
    decreases |s| - d, 1
  {
    if d == |s| {
      assert s[d..] == [];
      ks := [];
    } else if s[d] == ' ' {
      ks := SpaceRunsFrom(s, d);
    } else {
      ks := PieceRunsFrom(s, d);
    }
  }

  lemma {:induction false} SpaceRunsFrom(s: string, d: nat) returns (ks: seq<int>)
    requires d < |s| && s[d] == ' '
    ensures RunsFrom(s, d, Split(s[d..]), ks)
    decreases |s| - d, 0
  {
    SplitSkipsSpace(s, d);
    ks := SplitRunsFrom(s, d + 1);
    SkipSpace(s, d, Split(s[d..]), Split(s[d + 1..]), ks);
  }

  lemma {:induction false} PieceRunsFrom(s: string, d: nat) returns (ks: seq<int>)
    requires d < |s| && s[d] != ' ' && (d == 0 || s[d - 1] == ' ')
    ensures RunsFrom(s, d, Split(s[d..]), ks)
    decreases |s| - d, 0
  {
    var n := SplitTakesPiece(s, d);
    if d + n == |s| {
      PrependRun(s, d, n, Split(s[d..]), [], []);
      ks := [d];
      assert [d] + [] == ks;
    } else {
      var rest := SplitRunsFrom(s, d + n + 1);
      PrependRun(s, d, n, Split(s[d..]), Split(s[d + n + 1..]), rest);
      ks := [d] + rest;
    }
  }

  lemma SplitSkipsSpace(s: string, d: nat)
    requires d < |s| && s[d] == ' '
    ensures Split(s[d..]) == Split(s[d + 1..])
  {
    assert s[d..][1..] == s[d + 1..];
  }

  /** The split of `s[d..]` at a non-space: the run of `n` non-spaces, then the split after its closing space. */
  lemma SplitTakesPiece(s: string, d: nat) returns (n: nat)
    requires d < |s| && s[d] != ' '
    ensures 1 <= n && d + n <= |s| && ' ' !in s[d..d + n]
    ensures d + n == |s| ==> Split(s[d..]) == [s[d..d + n]]
    ensures d + n < |s| ==> s[d + n] == ' ' && Split(s[d..]) == [s[d..d + n]] + Split(s[d + n + 1..])
  {
    var t := s[d..];
    n := PieceLength(t);
    assert s[d..d + n] == t[..n];
    if d + n == |s| {
      assert t[n..] == [];
    } else {
      var u := t[n..];
      assert u[0] == ' ' && u[1..] == s[d + n + 1..];
    }
  }

  /** A space at `d` changes nothing about the runs after it. */
  lemma SkipSpace(s: string, d: nat, ws: seq<string>, ps: seq<string>, ks: seq<int>)
    requires d < |s| && s[d] == ' '
    requires ws == ps && RunsFrom(s, d + 1, ps, ks)
    ensures RunsFrom(s, d, ws, ks)
  {
  }

  /** A run of `n` characters at `d` followed by the runs after its closing space. */
  lemma PrependRun(s: string, d: nat, n: nat, ws: seq<string>, ps: seq<string>, ks: seq<int>)
    requires d + n <= |s|
    requires d == 0 || s[d - 1] == ' '
    requires d + n == |s| || s[d + n] == ' '
    requires ws == [s[d..d + n]] + ps && RunsFrom(s, d + n + 1, ps, ks)
    ensures RunsFrom(s, d, ws, [d] + ks)
  {
    var ks' := [d] + ks;
    assert |ws| == |ks'| && ws[0] == s[d..d + n] && ks'[0] == d;
    forall i | 1 <= i < |ws| ensures ws[i] == ps[i - 1] && ks'[i] == ks[i - 1] {
    }
    forall i | 0 <= i < |ws| ensures RunAt(s, ws[i], ks'[i]) && d <= ks'[i] {
      if i > 0 {
        assert RunAt(s, ps[i - 1], ks[i - 1]) && d + n + 1 <= ks[i - 1];
      }
    }
    forall i, j | 0 <= i < j < |ws| ensures ks'[i] + |ws[i]| < ks'[j] {
      assert d + n + 1 <= ks[j - 1];
      if i > 0 {
        assert ks[i - 1] + |ps[i - 1]| < ks[j - 1];
      }
    }
    forall m | d <= m < |s| && s[m] != ' '
      ensures Covered(ws, ks', m)
    {
      PrependCovers(s, d, n, ws, ps, ks, m);
    }
  }

  /** A non-space after `d` lies in the new run or in one of the runs after it. */
  lemma PrependCovers(s: string, d: nat, n: nat, ws: seq<string>, ps: seq<string>, ks: seq<int>, m: int)
    requires d + n <= |s| && (d + n == |s| || s[d + n] == ' ')
    requires ws == [s[d..d + n]] + ps && |ks| == |ps|
    requires forall m {:trigger Covered(ps, ks, m)} :: d + n + 1 <= m < |s| && s[m] != ' ' ==> Covered(ps, ks, m)
    requires d <= m < |s| && s[m] != ' '
    ensures Covered(ws, [d] + ks, m)
  {
    var ks' := [d] + ks;
    if m < d + n {
      assert ks'[0] <= m < ks'[0] + |ws[0]|;
    } else {
      assert m != d + n && Covered(ps, ks, m);
      var i :| 0 <= i < |ps| && ks[i] <= m < ks[i] + |ps[i]|;
      assert ks'[i + 1] <= m < ks'[i + 1] + |ws[i + 1]|;
    }
  }

  /** The characters a word of a cleaned text may hold: no space, only letters and digits. */
  predicate WordChars(p: string)
  {
    ' ' !in p && forall c :: c in p ==> KeepInText(c)
  }

  /** A word of a cleaned text is a fixed point of the word filter followed by `_clean`. */
  lemma CleanWordPiece(p: string)
    requires WordChars(p) && p != []
    ensures Keep(p, KeepInWord) == p && Clean(p) == p
  {
    forall c | c in p ensures KeepInWord(c) && Lower(c) == c {
      LowerFixesCleanChars(c);
    }
    forall k | 0 <= k < |p| ensures LowerAll(p)[k] == p[k] {
      assert p[k] in p;
    }
    assert LowerAll(p) == p;
  }

  /** Every piece of the split of a cleaned text is a non-empty word. */
  lemma SplitPiecesAreWords(t: string)
    requires forall c :: c in t ==> KeepInText(c)
    ensures forall k :: 0 <= k < |Split(t)| ==> Split(t)[k] != [] && WordChars(Split(t)[k])
  {
  }
}
