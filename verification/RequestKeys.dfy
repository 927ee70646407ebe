/** The canonical keys under which provider requests are shared. */
module RequestKeys {
  import opened Sorting
  import opened Text
  import opened Wrappers

  predicate IntLe(a: int, b: int) {
    a <= b
  }

  function Positive(seasons: seq<int>): seq<int> {
    if seasons == [] then []
    else if seasons[0] > 0 then [seasons[0]] + Positive(seasons[1..])
    else Positive(seasons[1..])
  }

  /** Removes consecutive repetitions. */
  function Dedup(s: seq<int>): seq<int> {
    if |s| <= 1 then s
    else if s[0] == s[1] then Dedup(s[1..])
    else [s[0]] + Dedup(s[1..])
  }

  function SeasonKey(seasons: seq<int>): seq<int> {
    Dedup(SortBy(IntLe, Positive(seasons)))
  }

  lemma {:induction false} PositiveMembers(seasons: seq<int>)
    ensures forall n :: n in Positive(seasons) <==> n in seasons && n > 0
  {
    if seasons != [] {
      PositiveMembers(seasons[1..]);
      assert seasons == [seasons[0]] + seasons[1..];
    }
  }

  lemma {:induction false} DedupSorted(s: seq<int>)
    requires Sorted(IntLe, s)
    ensures forall n :: n in Dedup(s) <==> n in s
    ensures forall i, j | 0 <= i < j < |Dedup(s)| :: Dedup(s)[i] < Dedup(s)[j]
    ensures s != [] ==> Dedup(s) != [] && Dedup(s)[0] == s[0]
  {
    if |s| > 1 {
      DedupSorted(s[1..]);
      assert s == [s[0]] + s[1..];
      if s[0] != s[1] {
        forall n | n in Dedup(s[1..])
          ensures s[0] < n
        {
          var j :| 0 <= j < |s[1..]| && s[1..][j] == n;
          assert IntLe(s[0], s[1]) && IntLe(s[1], s[1 + j]) by {
            if j > 0 {
              assert IntLe(s[1], s[1 + j]);
            }
          }
        }
      }
    }
  }

  lemma SeasonKeyMembers(seasons: seq<int>)
    ensures forall n :: n in SeasonKey(seasons) <==> n in seasons && n > 0
    ensures forall i, j | 0 <= i < j < |SeasonKey(seasons)| :: SeasonKey(seasons)[i] < SeasonKey(seasons)[j]
  {
    PositiveMembers(seasons);
    SortByKeeps(IntLe, Positive(seasons));
    SortBySorts(IntLe, Positive(seasons));
    DedupSorted(SortBy(IntLe, Positive(seasons)));
  }

  lemma TailMembers(a: seq<int>, n: int)
    requires a != [] && forall i, j | 0 <= i < j < |a| :: a[i] < a[j]
    ensures n in a[1..] <==> n in a && n != a[0]
  {
    assert a == [a[0]] + a[1..];
  }

  lemma {:induction false} IncreasingUnique(a: seq<int>, b: seq<int>)
    requires forall i, j | 0 <= i < j < |a| :: a[i] < a[j]
    requires forall i, j | 0 <= i < j < |b| :: b[i] < b[j]
    requires forall n :: n in a <==> n in b
    ensures a == b
  {
    if a != [] {
      assert a[0] in a;
      assert a[0] in b;
    }
    if b != [] {
      assert b[0] in b;
      assert b[0] in a;
    }
    if a != [] && b != [] {
      var i :| 0 <= i < |b| && b[i] == a[0];
      var j :| 0 <= j < |a| && a[j] == b[0];
      assert a[0] == b[0];
      assert a == [a[0]] + a[1..] && b == [b[0]] + b[1..];
      forall n
        ensures n in a[1..] <==> n in b[1..]
      {
        TailMembers(a, n);
        TailMembers(b, n);
      }
      IncreasingUnique(a[1..], b[1..]);
    }
  }

  /** Two outline requests share a key exactly when they ask for the same positive seasons. */
  lemma SameSeasonsSameKey(a: seq<int>, b: seq<int>)
    ensures SeasonKey(a) == SeasonKey(b) <==> (forall n | n > 0 :: n in a <==> n in b)
  {
    SeasonKeyMembers(a);
    SeasonKeyMembers(b);
    if forall n | n > 0 :: n in a <==> n in b {
      IncreasingUnique(SeasonKey(a), SeasonKey(b));
    }
    if SeasonKey(a) == SeasonKey(b) {
      forall n | n > 0
        ensures n in a <==> n in b
      {
        assert n in SeasonKey(a) <==> n in SeasonKey(b);
      }
    }
  }

  // ---- look-ups ----

  datatype Lookup = Lookup(
    title: string, year: Option<int>, seasonAirYear: Option<(int, int)>, libraryType: string,
    language: Option<string>, providerItemId: Option<string>)

  function Lower(s: string): string {
    seq(|s|, i requires 0 <= i < |s| => LowerAscii(s[i]))
  }

  function LowerStated(value: Option<string>): Option<string> {
    if Stated(value).Some? then Some(Lower(Stated(value).value)) else None
  }

  /** A known item is its id; anything else is its normalized title and years. */
  function CanonicalKey(lookup: Lookup, normalizeTitle: string -> string): Lookup {
    var libraryType, language := Lower(Trim(lookup.libraryType)), LowerStated(lookup.language);
    var item := LowerStated(lookup.providerItemId);
    if item.Some? then Lookup("", None, None, libraryType, language, item)
    else Lookup(normalizeTitle(lookup.title), lookup.year, lookup.seasonAirYear, libraryType, language, None)
  }

  lemma LowerKeepsSpace(c: char)
    ensures IsWhitespace(LowerAscii(c)) == IsWhitespace(c) && LowerAscii(LowerAscii(c)) == LowerAscii(c)
  {
    assert 'A' <= c <= 'Z' ==> LowerAscii(c) == c + 32 as char && 'a' <= LowerAscii(c) <= 'z';
  }

  lemma LowerTwice(s: string)
    ensures Lower(Lower(s)) == Lower(s)
  {
    forall i | 0 <= i < |s|
      ensures Lower(Lower(s))[i] == Lower(s)[i]
    {
      LowerKeepsSpace(s[i]);
    }
  }

  lemma LowerKeepsTrimmed(s: string)
    ensures Trim(Lower(Trim(s))) == Lower(Trim(s)) && Lower(Lower(Trim(s))) == Lower(Trim(s))
  {
    var t := Trim(s);
    LowerTwice(t);
    if t != "" {
      LowerKeepsSpace(t[0]);
      LowerKeepsSpace(t[|t| - 1]);
    }
  }

  lemma LowerStatedTwice(value: Option<string>)
    ensures LowerStated(LowerStated(value)) == LowerStated(value)
  {
    if value.Some? {
      LowerKeepsTrimmed(value.value);
    }
  }

  /** The key of a key is itself exactly when it names an item or normalizing its title again changes nothing. */
  lemma KeyIsCanonical(lookup: Lookup, normalizeTitle: string -> string)
    ensures CanonicalKey(CanonicalKey(lookup, normalizeTitle), normalizeTitle) == CanonicalKey(lookup, normalizeTitle)
            <==> Stated(lookup.providerItemId).Some?
                 || normalizeTitle(normalizeTitle(lookup.title)) == normalizeTitle(lookup.title)
  {
    LowerKeepsTrimmed(lookup.libraryType);
    LowerStatedTwice(lookup.language);
    LowerStatedTwice(lookup.providerItemId);
  }

  lemma LowerIsCaseless(a: string, b: string)
    ensures Lower(a) == Lower(b) <==> EqualIgnoringAsciiCase(a, b)
  {
    if Lower(a) == Lower(b) {
      assert |a| == |b|;
      forall i | 0 <= i < |a|
        ensures LowerAscii(a[i]) == LowerAscii(b[i])
      {
        assert Lower(a)[i] == Lower(b)[i];
      }
    }
  }

  ghost predicate SameCaseless(a: Option<string>, b: Option<string>) {
    if a.Some? && b.Some? then EqualIgnoringAsciiCase(a.value, b.value) else a.None? && b.None?
  }

  lemma LowerStatedIsCaseless(a: Option<string>, b: Option<string>)
    ensures LowerStated(a) == LowerStated(b) <==> SameCaseless(Stated(a), Stated(b))
  {
    if Stated(a).Some? && Stated(b).Some? {
      LowerIsCaseless(Stated(a).value, Stated(b).value);
    }
  }

  /**
   * Requests collapse exactly when they agree, up to case and surrounding space, on type and language, and either
   * name the same item or name none and agree on normalized title, year and season hint.
   */
  lemma SameKeyIff(a: Lookup, b: Lookup, normalizeTitle: string -> string)
    ensures CanonicalKey(a, normalizeTitle) == CanonicalKey(b, normalizeTitle) <==>
            && EqualIgnoringAsciiCase(Trim(a.libraryType), Trim(b.libraryType))
            && SameCaseless(Stated(a.language), Stated(b.language))
            && SameCaseless(Stated(a.providerItemId), Stated(b.providerItemId))
            && (Stated(a.providerItemId).None? ==>
                  normalizeTitle(a.title) == normalizeTitle(b.title)
                  && a.year == b.year && a.seasonAirYear == b.seasonAirYear)
  {
    LowerIsCaseless(Trim(a.libraryType), Trim(b.libraryType));
    LowerStatedIsCaseless(a.language, b.language);
    LowerStatedIsCaseless(a.providerItemId, b.providerItemId);
  }
}
