/** The fragment of Python's `re` that the day-count patterns use: literal
    characters, `\s*`, and one capturing group `(\d+)`.  A pattern is written
    `prefix (\d+) suffix`, so it has exactly one capturing group by construction.
    `Search` is `re.search`: the leftmost start position at which the pattern
    matches.  The matcher is greedy and never backtracks; `MatchAtAgreesWithRegex`
    shows that, for patterns whose literal characters are neither white space nor
    digits (all of the table's), it finds a match exactly when the regular
    expression matches there, and that every match there captures the same group. */
module Regex {
  import opened Text

  /** A literal character, or `\s*`. */
  datatype Atom = Char(c: char) | Spaces

  /** `prefix (\d+) suffix`. */
  datatype Pattern = Pattern(prefix: seq<Atom>, suffix: seq<Atom>)

  /** Where a match starts and ends, and the span of its capturing group. */
  datatype Found = Found(start: nat, end: nat, groupStart: nat, groupEnd: nat)

  /** The atoms matching the characters of `w` literally. */
  function Word(w: string): (r: seq<Atom>)
    ensures |r| == |w| && forall i :: 0 <= i < |w| ==> r[i] == Char(w[i])
  {
    seq(|w|, i requires 0 <= i < |w| => Char(w[i]))
  }

  lemma WordAppend(a: string, b: string)
    ensures Word(a + b) == Word(a) + Word(b)
  {
  }

  /** `\s*` taken greedily from position `k`. */
  function SkipSpaces(s: string, k: nat): (e: nat)
    requires k <= |s|
    ensures k <= e <= |s|
    ensures forall i :: k <= i < e ==> IsPySpace(s[i])
    ensures e == |s| || !IsPySpace(s[e])
    decreases |s| - k
  {
    if k < |s| && IsPySpace(s[k]) then SkipSpaces(s, k + 1) else k
  }

  /** `\d+` taken greedily from position `k` (ASCII digits); `k` itself if none. */
  function SkipDigits(s: string, k: nat): (e: nat)
    requires k <= |s|
    ensures k <= e <= |s|
    ensures forall i :: k <= i < e ==> IsDigit(s[i])
    ensures e == |s| || !IsDigit(s[e])
    decreases |s| - k
  {
    if k < |s| && IsDigit(s[k]) then SkipDigits(s, k + 1) else k
  }

  /** Greedy match of `atoms` from position `k`: the position after it, if any. */
  function MatchAtoms(atoms: seq<Atom>, s: string, k: nat): (r: Option<nat>)
    requires k <= |s|
    ensures r.Some? ==> k <= r.value <= |s|
    decreases |atoms|
  {
    if atoms == [] then Some(k)
    else match atoms[0]
      case Char(c) => if k < |s| && s[k] == c then MatchAtoms(atoms[1..], s, k + 1) else None
      case Spaces => MatchAtoms(atoms[1..], s, SkipSpaces(s, k))
  }

  /** The pattern matched at exactly position `i`. */
  function MatchAt(p: Pattern, s: string, i: nat): (r: Option<Found>)
    requires i <= |s|
    ensures r.Some? ==> r.value.start == i
                        && i <= r.value.groupStart < r.value.groupEnd <= r.value.end <= |s|
                        && AllDigits(s[r.value.groupStart..r.value.groupEnd])
  {
    match MatchAtoms(p.prefix, s, i)
    case None => None
    case Some(k) =>
      var g := SkipDigits(s, k);
      if g == k then None
      else match MatchAtoms(p.suffix, s, g)
        case None => None
        case Some(e) => Some(Found(i, e, k, g))
  }

  /** `re.search` from position `from` on: the match at the leftmost position. */
  function SearchFrom(p: Pattern, s: string, from: nat): (r: Option<Found>)
    requires from <= |s|
    ensures r.Some? ==> from <= r.value.start <= |s| && MatchAt(p, s, r.value.start) == r
    ensures r.Some? ==> forall j :: from <= j < r.value.start ==> MatchAt(p, s, j).None?
    ensures r.None? ==> forall j :: from <= j <= |s| ==> MatchAt(p, s, j).None?
    decreases |s| - from
  {
    var m := MatchAt(p, s, from);
    if m.Some? then m
    else if from == |s| then None
    else SearchFrom(p, s, from + 1)
  }

  /** `re.search(p, s)`. */
  function Search(p: Pattern, s: string): (r: Option<Found>)
    ensures r.Some? ==> r.value.start <= |s| && MatchAt(p, s, r.value.start) == r
    ensures r.Some? ==> forall j :: 0 <= j < r.value.start ==> MatchAt(p, s, j).None?
    ensures r.None? ==> forall j :: 0 <= j <= |s| ==> MatchAt(p, s, j).None?
  {
    SearchFrom(p, s, 0)
  }

  /** The integer read from the capturing group of a match. */
  function GroupValue(s: string, f: Found): (v: int)
    requires f.groupStart <= f.groupEnd <= |s|
    ensures AllDigits(s[f.groupStart..f.groupEnd]) ==> 0 <= v
  {
    ParseDigits(s[f.groupStart..f.groupEnd])
  }

  /** A group holding a count, zero-padded or not, reads back as that count. */
  lemma GroupValueOfNotation(s: string, f: Found, zeros: string, n: nat)
    requires f.groupStart <= f.groupEnd <= |s|
    requires forall i :: 0 <= i < |zeros| ==> zeros[i] == '0'
    requires s[f.groupStart..f.groupEnd] == zeros + NatToString(n)
    ensures GroupValue(s, f) == n
  {
    ParseDigitsLeadingZeros(zeros, NatToString(n));
    ParseNatToString(n);
  }

  /** A match at some position makes `re.search` succeed, at that position or
      an earlier one. */
  lemma SearchFindsMatch(p: Pattern, s: string, i: nat)
    requires i <= |s| && MatchAt(p, s, i).Some?
    ensures Search(p, s).Some? && Search(p, s).value.start <= i
  {
  }

  // ---------------------------------------------------------------------------
  // Composition of greedy matches

  /** Matching a concatenation of atom lists is matching the first, then the
      second from where the first stopped. */
  lemma {:induction false} MatchAtomsAppend(a: seq<Atom>, b: seq<Atom>, s: string, k: nat)
    requires k <= |s|
    ensures MatchAtoms(a + b, s, k) == match MatchAtoms(a, s, k)
                                       case None => None
                                       case Some(m) => MatchAtoms(b, s, m)
    decreases |a|
  {
    if a != [] {
      assert (a + b)[0] == a[0] && (a + b)[1..] == a[1..] + b;
      match a[0]
      case Char(c) =>
        if k < |s| && s[k] == c {
          MatchAtomsAppend(a[1..], b, s, k + 1);
        }
      case Spaces =>
        MatchAtomsAppend(a[1..], b, s, SkipSpaces(s, k));
    } else {
      assert a + b == b;
    }
  }

  /** If a pattern matches, so does the pattern with a shorter suffix, with the
      same capturing group. */
  lemma MatchAtLongerSuffix(p: Pattern, extra: seq<Atom>, s: string, i: nat)
    requires i <= |s|
    requires MatchAt(Pattern(p.prefix, p.suffix + extra), s, i).Some?
    ensures MatchAt(p, s, i).Some?
    ensures MatchAt(p, s, i).value.groupStart == MatchAt(Pattern(p.prefix, p.suffix + extra), s, i).value.groupStart
    ensures MatchAt(p, s, i).value.groupEnd == MatchAt(Pattern(p.prefix, p.suffix + extra), s, i).value.groupEnd
  {
    var k := MatchAtoms(p.prefix, s, i).value;
    MatchAtomsAppend(p.suffix, extra, s, SkipDigits(s, k));
  }

  /** If a pattern matches at `i`, the pattern without its prefix matches where
      the capturing group starts, capturing the same digits. */
  lemma MatchAtDropPrefix(p: Pattern, s: string, i: nat)
    requires i <= |s| && MatchAt(p, s, i).Some?
    ensures var f := MatchAt(p, s, i).value;
            MatchAt(Pattern([], p.suffix), s, f.groupStart) == Some(Found(f.groupStart, f.end, f.groupStart, f.groupEnd))
  {
  }

  /** Matching a word at `k` means the word occurs at `k`, and is consumed. */
  lemma {:induction false} WordMatches(w: string, s: string, k: nat)
    requires k <= |s| && MatchAtoms(Word(w), s, k).Some?
    ensures MatchAtoms(Word(w), s, k) == Some(k + |w|) && OccursAt(s, w, k)
    decreases |w|
  {
    if w != [] {
      assert Word(w)[1..] == Word(w[1..]);
      WordMatches(w[1..], s, k + 1);
      assert s[k..k + |w|] == [s[k]] + s[k + 1..k + 1 + |w[1..]|];
    }
  }

  /** A word occurring at `k` is matched there. */
  lemma {:induction false} WordOccurs(w: string, s: string, k: nat)
    requires OccursAt(s, w, k)
    ensures MatchAtoms(Word(w), s, k) == Some(k + |w|)
    decreases |w|
  {
    if w != [] {
      assert Word(w)[1..] == Word(w[1..]);
      assert s[k] == w[0];
      assert s[k + 1..k + 1 + |w[1..]|] == s[k..k + |w|][1..];
      WordOccurs(w[1..], s, k + 1);
    }
  }

  /** A pattern that starts with its group also matches one digit earlier,
      capturing the longer run. */
  lemma MatchExtendsLeft(p: Pattern, s: string, i: nat)
    requires p.prefix == [] && 0 < i <= |s| && IsDigit(s[i - 1])
    requires MatchAt(p, s, i).Some?
    ensures MatchAt(p, s, i - 1).Some?
    ensures MatchAt(p, s, i - 1).value.groupEnd == MatchAt(p, s, i).value.groupEnd
  {
    SkipDigitsRun(s, i - 1, SkipDigits(s, i));
  }

  // ---------------------------------------------------------------------------
  // The greedy matcher against the meaning of the regular expression

  /** `s[k..m]` is all white space. */
  ghost predicate SpacesBetween(s: string, k: nat, m: nat) {
    k <= m <= |s| && forall i :: k <= i < m ==> IsPySpace(s[i])
  }

  /** The regular-expression meaning of an atom list: it can consume exactly
      `s[k..e]` (any number of white-space characters for each `\s*`). */
  ghost predicate AtomsMatch(atoms: seq<Atom>, s: string, k: nat, e: nat)
    decreases |atoms|
  {
    if atoms == [] then k == e && e <= |s|
    else match atoms[0]
      case Char(c) => k < |s| && s[k] == c && AtomsMatch(atoms[1..], s, k + 1, e)
      case Spaces => exists m: nat :: SpacesBetween(s, k, m) && AtomsMatch(atoms[1..], s, m, e)
  }

  /** The regular-expression meaning of a pattern: starting at `i`, it can
      consume `s[i..e]` with the group capturing `s[k..g]`. */
  ghost predicate PatternMatches(p: Pattern, s: string, i: nat, k: nat, g: nat, e: nat) {
    && k < g <= |s|
    && AtomsMatch(p.prefix, s, i, k)
    && AllDigits(s[k..g])
    && AtomsMatch(p.suffix, s, g, e)
  }

  /** Literal characters are neither white space nor digits. */
  ghost predicate PlainAtoms(atoms: seq<Atom>) {
    forall i :: 0 <= i < |atoms| && atoms[i].Char? ==> !IsPySpace(atoms[i].c) && !IsDigit(atoms[i].c)
  }

  /** The shape on which greedy matching is exact: plain literals, and a suffix
      that ends with a literal character. */
  ghost predicate Deterministic(p: Pattern) {
    && PlainAtoms(p.prefix) && PlainAtoms(p.suffix)
    && p.suffix != [] && p.suffix[|p.suffix| - 1].Char?
  }

  lemma {:induction false} MatchAtomsSound(atoms: seq<Atom>, s: string, k: nat)
    requires k <= |s| && MatchAtoms(atoms, s, k).Some?
    ensures AtomsMatch(atoms, s, k, MatchAtoms(atoms, s, k).value)
    decreases |atoms|
  {
    if atoms != [] {
      match atoms[0]
      case Char(c) => MatchAtomsSound(atoms[1..], s, k + 1);
      case Spaces =>
        var m := SkipSpaces(s, k);
        MatchAtomsSound(atoms[1..], s, m);
        assert SpacesBetween(s, k, m);
    }
  }

  /** White space up to `m` leaves the greedy `\s*` from `k` where it is from `m`. */
  lemma {:induction false} SkipSpacesFrom(s: string, k: nat, m: nat)
    requires SpacesBetween(s, k, m)
    ensures SkipSpaces(s, k) == SkipSpaces(s, m)
    decreases m - k
  {
    if k < m {
      SkipSpacesFrom(s, k + 1, m);
    }
  }

  /** Any regular-expression match of plain atoms is found by the greedy
      matcher; it ends where the regular expression's does unless the atoms end
      in `\s*`, and even then when no white space follows. */
  lemma {:induction false} MatchAtomsComplete(atoms: seq<Atom>, s: string, k: nat, e: nat)
    requires k <= |s| && PlainAtoms(atoms) && AtomsMatch(atoms, s, k, e)
    requires atoms != [] && atoms[|atoms| - 1] == Spaces ==> e == |s| || (e < |s| && !IsPySpace(s[e]))
    ensures MatchAtoms(atoms, s, k) == Some(e)
    decreases |atoms|
  {
    if atoms != [] {
      var rest := atoms[1..];
      assert PlainAtoms(rest) by {
        forall i | 0 <= i < |rest| && rest[i].Char? ensures !IsPySpace(rest[i].c) && !IsDigit(rest[i].c) {
          assert rest[i] == atoms[i + 1];
        }
      }
      assert rest != [] ==> rest[|rest| - 1] == atoms[|atoms| - 1];
      match atoms[0]
      case Char(c) =>
        MatchAtomsComplete(rest, s, k + 1, e);
      case Spaces =>
        var m: nat :| SpacesBetween(s, k, m) && AtomsMatch(rest, s, m, e);
        MatchAtomsComplete(rest, s, m, e);
        SkipSpacesFrom(s, k, m);
        var g := SkipSpaces(s, k);
        if rest == [] {
          assert m == e;
        } else if rest[0].Char? {
          assert s[m] == rest[0].c && !IsPySpace(s[m]);
          assert g == m;
        } else {
          assert SkipSpaces(s, g) == g;
          assert MatchAtoms(rest, s, g) == MatchAtoms(rest[1..], s, g);
          assert MatchAtoms(rest, s, m) == MatchAtoms(rest[1..], s, g);
        }
    }
  }

  /** On a deterministic pattern, the greedy matcher finds a match at `i`
      exactly when the regular expression matches at `i`, and every way the
      regular expression can match there captures the group the matcher reports. */
  lemma MatchAtAgreesWithRegex(p: Pattern, s: string, i: nat)
    requires i <= |s| && Deterministic(p)
    ensures MatchAt(p, s, i).Some? <==> exists k, g, e :: PatternMatches(p, s, i, k, g, e)
    ensures forall k, g, e :: PatternMatches(p, s, i, k, g, e) ==>
              MatchAt(p, s, i).Some? && MatchAt(p, s, i).value.groupStart == k && MatchAt(p, s, i).value.groupEnd == g
  {
    if MatchAt(p, s, i).Some? {
      var f := MatchAt(p, s, i).value;
      MatchAtomsSound(p.prefix, s, i);
      MatchAtomsSound(p.suffix, s, f.groupEnd);
      assert PatternMatches(p, s, i, f.groupStart, f.groupEnd, f.end);
    }
    forall k, g, e | PatternMatches(p, s, i, k, g, e)
      ensures MatchAt(p, s, i).Some? && MatchAt(p, s, i).value.groupStart == k && MatchAt(p, s, i).value.groupEnd == g
    {
      GroupIsGreedy(p, s, i, k, g, e);
    }
  }

  lemma GroupIsGreedy(p: Pattern, s: string, i: nat, k: nat, g: nat, e: nat)
    requires i <= |s| && Deterministic(p) && PatternMatches(p, s, i, k, g, e)
    ensures MatchAt(p, s, i) == Some(Found(i, e, k, g))
  {
    assert i <= k by { AtomsMatchBounds(p.prefix, s, i, k); }
    if p.prefix != [] && p.prefix[|p.prefix| - 1] == Spaces {
      assert IsDigit(s[k]) by { assert s[k..g][0] == s[k]; }
    }
    MatchAtomsComplete(p.prefix, s, i, k);
    AtomsMatchBounds(p.suffix, s, g, e);
    assert g < |s| && !IsDigit(s[g]) by {
      SuffixStartsWithNonDigit(p.suffix, s, g, e);
    }
    forall j | k <= j < g ensures IsDigit(s[j]) {
      assert s[k..g][j - k] == s[j];
    }
    SkipDigitsRun(s, k, g);
    MatchAtomsComplete(p.suffix, s, g, e);
  }

  lemma {:induction false} AtomsMatchBounds(atoms: seq<Atom>, s: string, k: nat, e: nat)
    requires AtomsMatch(atoms, s, k, e)
    ensures k <= e <= |s|
    decreases |atoms|
  {
    if atoms != [] {
      match atoms[0]
      case Char(c) => AtomsMatchBounds(atoms[1..], s, k + 1, e);
      case Spaces =>
        var m: nat :| SpacesBetween(s, k, m) && AtomsMatch(atoms[1..], s, m, e);
        AtomsMatchBounds(atoms[1..], s, m, e);
    }
  }

  /** A plain atom list ending in a literal, matched from `g`, needs a
      character at `g` that is not a digit. */
  lemma {:induction false} SuffixStartsWithNonDigit(atoms: seq<Atom>, s: string, g: nat, e: nat)
    requires PlainAtoms(atoms) && atoms != [] && atoms[|atoms| - 1].Char?
    requires AtomsMatch(atoms, s, g, e)
    ensures g < |s| && !IsDigit(s[g])
    decreases |atoms|
  {
    match atoms[0]
    case Char(c) =>
      assert !IsDigit(c);
    case Spaces =>
      var rest := atoms[1..];
      var m: nat :| SpacesBetween(s, g, m) && AtomsMatch(rest, s, m, e);
      assert rest != [] && rest[|rest| - 1] == atoms[|atoms| - 1];
      assert PlainAtoms(rest) by {
        forall j | 0 <= j < |rest| && rest[j].Char? ensures !IsPySpace(rest[j].c) && !IsDigit(rest[j].c) {
          assert rest[j] == atoms[j + 1];
        }
      }
      if m == g {
        SuffixStartsWithNonDigit(rest, s, m, e);
      } else {
        assert IsPySpace(s[g]);
      }
  }

  lemma {:induction false} SkipDigitsRun(s: string, k: nat, g: nat)
    requires k <= g <= |s|
    requires forall j :: k <= j < g ==> IsDigit(s[j])
    requires g == |s| || !IsDigit(s[g])
    ensures SkipDigits(s, k) == g
    decreases g - k
  {
    if k < g {
      SkipDigitsRun(s, k + 1, g);
    }
  }
}
