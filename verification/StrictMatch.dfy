/** Choosing the one search result a title may be bound to. */
module StrictMatch {
  import opened Sequences
  import opened Wrappers

  const MAX_ALTERNATIVE_TITLE_CANDIDATES: nat := 40

  datatype Candidate = Candidate(id: int, title: Option<string>, originalTitle: Option<string>, year: Option<int>)

  /** How a local title may match a remote one. */
  datatype TitleRelations = TitleRelations(
    exact: (string, string) -> bool,
    ignoringSeparators: (string, string) -> bool,
    numberedSubtitle: (string, string) -> bool)

  datatype SeasonHint = SeasonHint(season: int, year: int)

  datatype Lookup = Lookup(title: string, year: Option<int>, season: Option<SeasonHint>)

  /**
   * What the provider answers by id: alternative titles unless the request fails, and whether a season
   * aired in a year.
   */
  datatype Provider = Provider(
    relations: TitleRelations,
    alternativeTitles: int -> Option<seq<string>>,
    seasonAired: (int, SeasonHint) -> bool)

  // ---- direct titles ----

  const NO_DIRECT: nat := 6

  predicate Relates(relation: (string, string) -> bool, query: string, title: Option<string>) {
    title.Some? && relation(query, title.value)
  }

  /** The six direct rules, strongest first. */
  predicate DirectMatches(r: TitleRelations, query: string, c: Candidate, rule: nat) {
    if rule == 0 then Relates(r.exact, query, c.originalTitle)
    else if rule == 1 then Relates(r.exact, query, c.title)
    else if rule == 2 then Relates(r.ignoringSeparators, query, c.originalTitle)
    else if rule == 3 then Relates(r.ignoringSeparators, query, c.title)
    else if rule == 4 then Relates(r.numberedSubtitle, query, c.originalTitle)
    else Relates(r.numberedSubtitle, query, c.title)
  }

  function ByRule(r: TitleRelations, query: string, rule: nat): Candidate -> bool {
    (c: Candidate) => DirectMatches(r, query, c, rule)
  }

  /** Tries the rules in turn and returns everything the first successful one matches. */
  function DirectFrom(r: TitleRelations, query: string, cs: seq<Candidate>, rule: nat): seq<Candidate>
    requires rule < NO_DIRECT
    decreases NO_DIRECT - rule
  {
    var matches := Keep(cs, ByRule(r, query, rule));
    if matches != [] || rule == NO_DIRECT - 1 then matches else DirectFrom(r, query, cs, rule + 1)
  }

  function StrongestDirect(r: TitleRelations, query: string, cs: seq<Candidate>): seq<Candidate> {
    DirectFrom(r, query, cs, 0)
  }

  function DirectRankFrom(r: TitleRelations, query: string, c: Candidate, rule: nat): (rank: nat)
    requires rule <= NO_DIRECT
    ensures rule <= rank <= NO_DIRECT
    ensures rank < NO_DIRECT ==> DirectMatches(r, query, c, rank)
    ensures forall k | rule <= k < rank :: !DirectMatches(r, query, c, k)
    decreases NO_DIRECT - rule
  {
    if rule == NO_DIRECT || DirectMatches(r, query, c, rule) then rule else DirectRankFrom(r, query, c, rule + 1)
  }

  // ---- alternative titles ----

  function AlternativeRank(p: Provider, query: string, c: Candidate): (rank: nat)
    ensures 6 <= rank <= 9
  {
    var titles := p.alternativeTitles(c.id);
    if titles.None? then 9
    else if exists i | 0 <= i < |titles.value| :: p.relations.exact(query, titles.value[i]) then 6
    else if exists i | 0 <= i < |titles.value| :: p.relations.ignoringSeparators(query, titles.value[i]) then 7
    else if exists i | 0 <= i < |titles.value| :: p.relations.numberedSubtitle(query, titles.value[i]) then 8
    else 9
  }

  function ByAlternative(p: Provider, query: string, rank: nat): Candidate -> bool {
    (c: Candidate) => AlternativeRank(p, query, c) == rank
  }

  function AlternativesRanked(p: Provider, query: string, cs: seq<Candidate>, rank: nat): seq<Candidate> {
    Keep(cs, ByAlternative(p, query, rank))
  }

  function StrongestAlternative(p: Provider, query: string, cs: seq<Candidate>): seq<Candidate> {
    if AlternativesRanked(p, query, cs, 6) != [] then AlternativesRanked(p, query, cs, 6)
    else if AlternativesRanked(p, query, cs, 7) != [] then AlternativesRanked(p, query, cs, 7)
    else AlternativesRanked(p, query, cs, 8)
  }

  // ---- the match ----

  predicate MatchesYear(lookup: Lookup, c: Candidate) {
    lookup.year.Some? ==> c.year == lookup.year
  }

  function ByYear(lookup: Lookup): Candidate -> bool {
    (c: Candidate) => MatchesYear(lookup, c)
  }

  function Eligible(lookup: Lookup, cs: seq<Candidate>): seq<Candidate> {
    Keep(cs, ByYear(lookup))
  }

  predicate SeasonFits(p: Provider, lookup: Lookup, c: Candidate) {
    lookup.season.Some? ==> p.seasonAired(c.id, lookup.season.value)
  }

  function BySeason(p: Provider, lookup: Lookup): Candidate -> bool {
    (c: Candidate) => SeasonFits(p, lookup, c)
  }

  function VerifySeason(p: Provider, lookup: Lookup, cs: seq<Candidate>): seq<Candidate> {
    if lookup.season.None? then cs
    else if |cs| > MAX_ALTERNATIVE_TITLE_CANDIDATES then []
    else Keep(cs, BySeason(p, lookup))
  }

  function Only(cs: seq<Candidate>): Option<Candidate> {
    if |cs| == 1 then Some(cs[0]) else None
  }

  function FirstOf(cs: seq<Candidate>): Option<Candidate> {
    if cs == [] then None else Some(cs[0])
  }

  /** The candidates that compete when a year or a season hint is known. */
  function Competing(p: Provider, lookup: Lookup, cs: seq<Candidate>): seq<Candidate> {
    var eligible := Eligible(lookup, cs);
    var direct := StrongestDirect(p.relations, lookup.title, eligible);
    if direct != [] then direct
    else if |eligible| > MAX_ALTERNATIVE_TITLE_CANDIDATES then []
    else StrongestAlternative(p, lookup.title, eligible)
  }

  /** Without a year, an exact title on the page, or else its first result. */
  function Undated(p: Provider, lookup: Lookup, cs: seq<Candidate>): seq<Candidate> {
    var direct := StrongestDirect(p.relations, lookup.title, cs);
    if direct != [] then direct else cs
  }

  function Match(p: Provider, lookup: Lookup, cs: seq<Candidate>): Option<Candidate> {
    if lookup.year.None? && lookup.season.None? then FirstOf(Undated(p, lookup, cs))
    else Only(VerifySeason(p, lookup, Competing(p, lookup, cs)))
  }

  // ---- the selectors ----

  method ClassifyAlternatives(p: Provider, query: string, cs: seq<Candidate>) returns (strongest: seq<Candidate>)
    ensures strongest == StrongestAlternative(p, query, cs)
  {
    var exact: seq<Candidate>, separators: seq<Candidate>, numbered: seq<Candidate> := [], [], [];
    for i := 0 to |cs|
      invariant exact == AlternativesRanked(p, query, cs[..i], 6)
      invariant separators == AlternativesRanked(p, query, cs[..i], 7)
      invariant numbered == AlternativesRanked(p, query, cs[..i], 8)
    {
      assert cs[..i + 1][..i] == cs[..i];
      var rank := AlternativeRank(p, query, cs[i]);
      if rank == 6 {
        exact := exact + [cs[i]];
      } else if rank == 7 {
        separators := separators + [cs[i]];
      } else if rank == 8 {
        numbered := numbered + [cs[i]];
      }
    }
    assert cs[..|cs|] == cs;
    strongest := if exact != [] then exact else if separators != [] then separators else numbered;
  }

  method FilterBySeason(p: Provider, lookup: Lookup, cs: seq<Candidate>) returns (verified: seq<Candidate>)
    ensures verified == VerifySeason(p, lookup, cs)
  {
    if lookup.season.None? {
      return cs;
    }
    if |cs| > MAX_ALTERNATIVE_TITLE_CANDIDATES {
      return [];
    }
    verified := [];
    for i := 0 to |cs|
      invariant verified == Keep(cs[..i], BySeason(p, lookup))
    {
      assert cs[..i + 1][..i] == cs[..i];
      if p.seasonAired(cs[i].id, lookup.season.value) {
        verified := verified + [cs[i]];
      }
    }
    assert cs[..|cs|] == cs;
  }

  method SelectStrictTvMatch(p: Provider, lookup: Lookup, cs: seq<Candidate>) returns (selected: Option<Candidate>)
    ensures selected == Match(p, lookup, cs)
  {
    if lookup.year.None? && lookup.season.None? {
      return FirstOf(Undated(p, lookup, cs));
    }
    var eligible := Eligible(lookup, cs);
    var competing := StrongestDirect(p.relations, lookup.title, eligible);
    if competing == [] {
      if |eligible| > MAX_ALTERNATIVE_TITLE_CANDIDATES {
        return None;
      }
      competing := ClassifyAlternatives(p, lookup.title, eligible);
    }
    var verified := FilterBySeason(p, lookup, competing);
    return Only(verified);
  }

  /** A movie is looked up without a season. */
  method SelectStrictMovieMatch(p: Provider, lookup: Lookup, cs: seq<Candidate>) returns (selected: Option<Candidate>)
    ensures selected == Match(p, lookup.(season := None), cs)
  {
    if lookup.year.None? {
      return FirstOf(Undated(p, lookup, cs));
    }
    var eligible := Eligible(lookup, cs);
    assert eligible == Eligible(lookup.(season := None), cs) by {
      SameKeep(cs, ByYear(lookup), ByYear(lookup.(season := None)));
    }
    var competing := StrongestDirect(p.relations, lookup.title, eligible);
    if competing == [] {
      if |eligible| > MAX_ALTERNATIVE_TITLE_CANDIDATES {
        return None;
      }
      competing := ClassifyAlternatives(p, lookup.title, eligible);
    }
    return Only(competing);
  }

  /** Keeps the first result for each id, in the order of the results. */
  method Deduplicate(results: seq<Candidate>) returns (kept: seq<Candidate>, ghost positions: seq<nat>)
    ensures |positions| == |kept|
    ensures forall i, j | 0 <= i < j < |positions| :: positions[i] < positions[j]
    ensures forall i | 0 <= i < |kept| :: positions[i] < |results| && IsFirst(results, positions[i])
                                          && kept[i] == results[positions[i]]
    ensures forall k | 0 <= k < |results| && IsFirst(results, k) :: k in positions
  {
    kept, positions := [], [];
    var seen := {};
    for n := 0 to |results|
      invariant |positions| == |kept|
      invariant forall i, j | 0 <= i < j < |positions| :: positions[i] < positions[j]
      invariant forall i | 0 <= i < |kept| :: positions[i] < n && IsFirst(results, positions[i])
                                              && kept[i] == results[positions[i]]
      invariant forall k | 0 <= k < n && IsFirst(results, k) :: k in positions
      invariant forall id :: id in seen <==> exists j | 0 <= j < n :: results[j].id == id
    {
      if results[n].id !in seen {
        kept, positions := kept + [results[n]], positions + [n];
        seen := seen + {results[n].id};
      }
    }
  }

  /** No earlier result has the same id. */
  predicate IsFirst(results: seq<Candidate>, k: nat)
    requires k < |results|
  {
    forall j | 0 <= j < k :: results[j].id != results[k].id
  }

  // ---- the reference: one best-ranked candidate ----

  /** Direct rules rank 0 to 5, alternative titles 6 to 8, nothing 9. */
  function Rank(p: Provider, query: string, c: Candidate): nat {
    var direct := DirectRankFrom(p.relations, query, c, 0);
    if direct < NO_DIRECT then direct else AlternativeRank(p, query, c)
  }

  function ByRank(p: Provider, query: string, rank: nat): Candidate -> bool {
    (c: Candidate) => Rank(p, query, c) == rank
  }

  lemma KeptAre<T>(s: seq<T>, keep: T -> bool)
    ensures forall x | x in Keep(s, keep) :: x in s && keep(x)
    ensures forall x | x in s && keep(x) :: x in Keep(s, keep)
  {
    forall x
      ensures x in Keep(s, keep) <==> x in s && keep(x)
    {
      KeepMembers(s, keep, x);
    }
  }

  /** The cascade returns everything of the strongest rank that any candidate has. */
  lemma {:induction false} DirectFromIsRank(r: TitleRelations, query: string, cs: seq<Candidate>,
                                            rule: nat) returns (k: nat)
    requires rule < NO_DIRECT
    requires forall c | c in cs :: DirectRankFrom(r, query, c, 0) >= rule
    ensures forall c | c in cs :: DirectRankFrom(r, query, c, 0) >= k
    ensures k <= NO_DIRECT
    ensures k < NO_DIRECT ==> DirectFrom(r, query, cs, rule) != []
                              && DirectFrom(r, query, cs, rule) == Keep(cs, (c: Candidate) => DirectRankFrom(r,
                                  query, c, 0) == k)
    ensures k == NO_DIRECT ==> DirectFrom(r, query, cs, rule) == []
    decreases NO_DIRECT - rule
  {
    var matches := Keep(cs, ByRule(r, query, rule));
    KeptAre(cs, ByRule(r, query, rule));
    if matches != [] {
      k := rule;
      SameKeep(cs, ByRule(r, query, rule), (c: Candidate) => DirectRankFrom(r, query, c, 0) == k);
    } else {
      forall c | c in cs
        ensures DirectRankFrom(r, query, c, 0) >= rule + 1
      {
        assert !ByRule(r, query, rule)(c);
      }
      if rule == NO_DIRECT - 1 {
        k := NO_DIRECT;
      } else {
        k := DirectFromIsRank(r, query, cs, rule + 1);
      }
    }
  }

  lemma StrongestAlternativeIsRank(p: Provider, query: string, cs: seq<Candidate>) returns (best: nat)
    requires forall c | c in cs :: DirectRankFrom(p.relations, query, c, 0) == NO_DIRECT
    ensures 6 <= best <= 9
    ensures forall c | c in cs :: Rank(p, query, c) >= best
    ensures best < 9 ==> exists c :: c in cs && Rank(p, query, c) == best
    ensures StrongestAlternative(p, query, cs) == if best == 9 then [] else Keep(cs, ByRank(p, query, best))
  {
    KeptAre(cs, ByAlternative(p, query, 6));
    KeptAre(cs, ByAlternative(p, query, 7));
    KeptAre(cs, ByAlternative(p, query, 8));
    best := if AlternativesRanked(p, query, cs, 6) != [] then 6
            else if AlternativesRanked(p, query, cs, 7) != [] then 7
            else if AlternativesRanked(p, query, cs, 8) != [] then 8 else 9;
    if best < 9 {
      SameKeep(cs, ByAlternative(p, query, best), ByRank(p, query, best));
      assert AlternativesRanked(p, query, cs, best)[0] in AlternativesRanked(p, query, cs, best);
    }
    forall c | c in cs
      ensures Rank(p, query, c) >= best
    {
      assert ByAlternative(p, query, 6)(c) || ByAlternative(p, query, 7)(c) || ByAlternative(p, query, 8)(c)
             || AlternativeRank(p, query, c) == 9;
    }
  }

  lemma StrongestDirectIsRank(p: Provider, query: string, cs: seq<Candidate>) returns (best: nat)
    ensures best <= NO_DIRECT
    ensures best == NO_DIRECT ==> StrongestDirect(p.relations, query, cs) == []
                                  && forall c | c in cs :: DirectRankFrom(p.relations, query, c, 0) == NO_DIRECT
    ensures best < NO_DIRECT ==>
              && StrongestDirect(p.relations, query, cs) != []
              && StrongestDirect(p.relations, query, cs) == Keep(cs, ByRank(p, query, best))
              && (forall c | c in cs :: Rank(p, query, c) >= best)
              && (exists c :: c in cs && Rank(p, query, c) == best)
  {
    best := DirectFromIsRank(p.relations, query, cs, 0);
    if best < NO_DIRECT {
      var direct := (c: Candidate) => DirectRankFrom(p.relations, query, c, 0) == best;
      SameKeep(cs, direct, ByRank(p, query, best));
      KeptAre(cs, direct);
      assert StrongestDirect(p.relations, query, cs)[0] in Keep(cs, direct);
    }
  }

  /** The best rank among the candidates of the right year, 9 when none of them has one. */
  ghost predicate IsBestRank(p: Provider, lookup: Lookup, cs: seq<Candidate>, best: nat) {
    && best <= 9
    && (forall c | c in Eligible(lookup, cs) :: Rank(p, lookup.title, c) >= best)
    && (best < 9 ==> exists c :: c in Eligible(lookup, cs) && Rank(p, lookup.title, c) == best)
  }

  /** The candidates that compete are all those of the best rank, unless there are too many to look into. */
  lemma CompetingIsBestRank(p: Provider, lookup: Lookup, cs: seq<Candidate>) returns (best: nat)
    ensures IsBestRank(p, lookup, cs, best)
    ensures Competing(p, lookup, cs) ==
            if best == 9 || (best >= NO_DIRECT && |Eligible(lookup, cs)| > MAX_ALTERNATIVE_TITLE_CANDIDATES) then []
            else Keep(Eligible(lookup, cs), ByRank(p, lookup.title, best))
  {
    best := StrongestDirectIsRank(p, lookup.title, Eligible(lookup, cs));
    if best == NO_DIRECT {
      best := StrongestAlternativeIsRank(p, lookup.title, Eligible(lookup, cs));
    }
  }

  // ---- the same by titles and relations alone ----

  /** Equal titles are stronger than titles equal but for separators, and those than numbered subtitles. */
  ghost function Relation(r: TitleRelations, strength: nat): (string, string) -> bool {
    if strength == 0 then r.exact else if strength == 1 then r.ignoringSeparators else r.numberedSubtitle
  }

  /** Within one relation the original title is tried before the translated one; alternative titles come last. */
  ghost predicate InTier(p: Provider, query: string, c: Candidate, tier: nat) {
    if tier < 6 then
      var title := if tier % 2 == 0 then c.originalTitle else c.title;
      title.Some? && Relation(p.relations, tier / 2)(query, title.value)
    else
      var titles := p.alternativeTitles(c.id);
      titles.Some? && exists t | t in titles.value :: Relation(p.relations, tier - 6)(query, t)
  }

  lemma DirectMatchIsTier(p: Provider, query: string, c: Candidate, tier: nat)
    requires tier < 6
    ensures DirectMatches(p.relations, query, c, tier) <==> InTier(p, query, c, tier)
  {
  }

  lemma AlternativeRankIsTier(p: Provider, query: string, c: Candidate)
    ensures forall tier: nat | 6 <= tier < AlternativeRank(p, query, c) :: !InTier(p, query, c, tier)
    ensures AlternativeRank(p, query, c) < 9 ==> InTier(p, query, c, AlternativeRank(p, query, c))
  {
    var titles := p.alternativeTitles(c.id);
    if titles.Some? {
      forall strength: nat, t | strength < 3 && t in titles.value && Relation(p.relations, strength)(query, t)
        ensures AlternativeRank(p, query, c) <= 6 + strength
      {
        var i :| 0 <= i < |titles.value| && titles.value[i] == t;
      }
      var rank := AlternativeRank(p, query, c);
      if rank < 9 {
        var relation := Relation(p.relations, rank - 6);
        assert exists i | 0 <= i < |titles.value| :: relation(query, titles.value[i]);
        var i :| 0 <= i < |titles.value| && relation(query, titles.value[i]);
        assert titles.value[i] in titles.value;
      }
    }
  }

  /** The rank of a candidate is the strongest tier it is in. */
  lemma RankIsStrongestTier(p: Provider, query: string, c: Candidate)
    ensures Rank(p, query, c) <= 9
    ensures Rank(p, query, c) < 9 ==> InTier(p, query, c, Rank(p, query, c))
    ensures forall tier: nat | tier < Rank(p, query, c) :: !InTier(p, query, c, tier)
  {
    forall tier: nat | tier < 6
      ensures DirectMatches(p.relations, query, c, tier) <==> InTier(p, query, c, tier)
    {
      DirectMatchIsTier(p, query, c, tier);
    }
    AlternativeRankIsTier(p, query, c);
  }

  /**
   * The candidates that compete are exactly the eligible ones of the strongest tier that any eligible one is in; for
   * an alternative title, only while there are few enough to look into; and there are none when no tier has a member.
   */
  lemma StrongestTierCompetes(p: Provider, lookup: Lookup, cs: seq<Candidate>, tier: nat, c: Candidate)
    requires tier <= 9
    requires forall d, k: nat | d in cs && (lookup.year.Some? ==> d.year == lookup.year) && k < tier ::
               !InTier(p, lookup.title, d, k)
    requires tier < 9 ==>
      exists d | d in cs :: (lookup.year.Some? ==> d.year == lookup.year) && InTier(p, lookup.title, d, tier)
    ensures c in Competing(p, lookup, cs) <==>
            && c in cs && (lookup.year.Some? ==> c.year == lookup.year)
            && tier < 9 && InTier(p, lookup.title, c, tier)
            && (tier >= 6 ==> |Eligible(lookup, cs)| <= MAX_ALTERNATIVE_TITLE_CANDIDATES)
  {
    var eligible := Eligible(lookup, cs);
    var best := CompetingIsBestRank(p, lookup, cs);
    KeptAre(cs, ByYear(lookup));
    KeptAre(eligible, ByRank(p, lookup.title, best));
    forall d | d in eligible
      ensures Rank(p, lookup.title, d) >= tier
      ensures InTier(p, lookup.title, d, tier) && tier < 9 ==> Rank(p, lookup.title, d) == tier
    {
      RankIsStrongestTier(p, lookup.title, d);
    }
    RankIsStrongestTier(p, lookup.title, c);
  }

  /** Without a year or a season hint, the same over all results, but only for their own titles. */
  lemma StrongestTierWinsUndated(p: Provider, lookup: Lookup, cs: seq<Candidate>, tier: nat, c: Candidate)
    requires tier < 6
    requires forall d, k: nat | d in cs && k < tier :: !InTier(p, lookup.title, d, k)
    requires exists d | d in cs :: InTier(p, lookup.title, d, tier)
    ensures c in Undated(p, lookup, cs) <==> c in cs && InTier(p, lookup.title, c, tier)
  {
    var best := StrongestDirectIsRank(p, lookup.title, cs);
    KeptAre(cs, ByRank(p, lookup.title, best));
    forall d | d in cs
      ensures Rank(p, lookup.title, d) >= tier
      ensures InTier(p, lookup.title, d, tier) ==> Rank(p, lookup.title, d) == tier
    {
      RankIsStrongestTier(p, lookup.title, d);
    }
  }

  /** And when no result has such a title, the whole page competes and its first result wins. */
  lemma UntitledPageWinsUndated(p: Provider, lookup: Lookup, cs: seq<Candidate>)
    requires forall d, k: nat | d in cs && k < 6 :: !InTier(p, lookup.title, d, k)
    ensures Undated(p, lookup, cs) == cs
  {
    var best := StrongestDirectIsRank(p, lookup.title, cs);
    if best < NO_DIRECT {
      var d :| d in cs && Rank(p, lookup.title, d) == best;
      RankIsStrongestTier(p, lookup.title, d);
    }
  }

  /** One candidate stands out: the only occurrence of the best rank that the season check leaves. */
  ghost predicate StandsOut(p: Provider, lookup: Lookup, cs: seq<Candidate>, c: Candidate) {
    var query, eligible := lookup.title, Eligible(lookup, cs);
    && c in eligible && multiset(eligible)[c] == 1
    && SeasonFits(p, lookup, c)
    && Rank(p, query, c) < 9
    && (Rank(p, query, c) >= NO_DIRECT ==> |eligible| <= MAX_ALTERNATIVE_TITLE_CANDIDATES)
    && (lookup.season.Some? ==>
          |Keep(eligible, ByRank(p, query, Rank(p, query, c)))| <= MAX_ALTERNATIVE_TITLE_CANDIDATES)
    && forall d | d in eligible && d != c ::
         Rank(p, query, d) > Rank(p, query, c) || (Rank(p, query, d) == Rank(p, query, c) && !SeasonFits(p, lookup, d))
  }

  lemma OnlyIs(s: seq<Candidate>, c: Candidate)
    ensures Only(s) == Some(c) <==> c in s && multiset(s)[c] == 1 && forall d | d in s :: d == c
  {
    if |s| >= 2 && (forall d | d in s :: d == c) {
      assert s[0] in s && s[1] in s;
      assert s == [s[0]] + [s[1]] + s[2..];
      assert multiset(s) == multiset{s[0], s[1]} + multiset(s[2..]);
    } else if |s| == 1 {
      assert s == [s[0]];
    }
  }

  lemma VerifiedMembers(p: Provider, lookup: Lookup, cs: seq<Candidate>, c: Candidate)
    requires lookup.season.Some? ==> |cs| <= MAX_ALTERNATIVE_TITLE_CANDIDATES
    ensures c in VerifySeason(p, lookup, cs) <==> c in cs && SeasonFits(p, lookup, c)
    ensures c in VerifySeason(p, lookup, cs) ==> multiset(VerifySeason(p, lookup, cs))[c] == multiset(cs)[c]
  {
    if lookup.season.Some? {
      KeepMembers(cs, BySeason(p, lookup), c);
      KeepCounts(cs, BySeason(p, lookup), c);
    }
  }

  ghost predicate TooMany(p: Provider, lookup: Lookup, cs: seq<Candidate>, best: nat) {
    || (best >= NO_DIRECT && |Eligible(lookup, cs)| > MAX_ALTERNATIVE_TITLE_CANDIDATES)
    || (lookup.season.Some?
        && |Keep(Eligible(lookup, cs), ByRank(p, lookup.title, best))| > MAX_ALTERNATIVE_TITLE_CANDIDATES)
  }

  lemma NobodyStandsOut(p: Provider, lookup: Lookup, cs: seq<Candidate>, best: nat, c: Candidate)
    requires IsBestRank(p, lookup, cs, best) && (best == 9 || TooMany(p, lookup, cs, best))
    ensures !StandsOut(p, lookup, cs, c)
  {
  }

  lemma OneStandsOut(p: Provider, lookup: Lookup, cs: seq<Candidate>, best: nat, c: Candidate)
    requires IsBestRank(p, lookup, cs, best) && best < 9 && !TooMany(p, lookup, cs, best)
    ensures StandsOut(p, lookup, cs, c) <==>
            var eligible := Eligible(lookup, cs);
            && c in eligible && multiset(eligible)[c] == 1 && Rank(p, lookup.title, c) == best
            && SeasonFits(p, lookup, c)
            && forall d | d in eligible && d != c && Rank(p, lookup.title, d) == best :: !SeasonFits(p, lookup, d)
  {
  }

  lemma OnlyVerified(p: Provider, lookup: Lookup, cs: seq<Candidate>, best: nat, c: Candidate)
    requires !TooMany(p, lookup, cs, best)
    ensures var eligible := Eligible(lookup, cs);
            Only(VerifySeason(p, lookup, Keep(eligible, ByRank(p, lookup.title, best)))) == Some(c) <==>
            && c in eligible && multiset(eligible)[c] == 1 && Rank(p, lookup.title, c) == best
            && SeasonFits(p, lookup, c)
            && forall d | d in eligible && d != c && Rank(p, lookup.title, d) == best :: !SeasonFits(p, lookup, d)
  {
    var eligible := Eligible(lookup, cs);
    var ranked := Keep(eligible, ByRank(p, lookup.title, best));
    var verified := VerifySeason(p, lookup, ranked);
    forall d
      ensures d in verified <==> d in eligible && Rank(p, lookup.title, d) == best && SeasonFits(p, lookup, d)
    {
      VerifiedMembers(p, lookup, ranked, d);
      KeepMembers(eligible, ByRank(p, lookup.title, best), d);
    }
    VerifiedMembers(p, lookup, ranked, c);
    KeepCounts(eligible, ByRank(p, lookup.title, best), c);
    OnlyIs(verified, c);
  }

  /** With a year or a season hint, the match is the candidate that stands out, and none when none does. */
  lemma MatchStandsOut(p: Provider, lookup: Lookup, cs: seq<Candidate>, c: Candidate)
    requires lookup.year.Some? || lookup.season.Some?
    ensures Match(p, lookup, cs) == Some(c) <==> StandsOut(p, lookup, cs, c)
  {
    var best := CompetingIsBestRank(p, lookup, cs);
    if best == 9 || TooMany(p, lookup, cs, best) {
      assert Match(p, lookup, cs) == None;
      NobodyStandsOut(p, lookup, cs, best, c);
    } else {
      OnlyVerified(p, lookup, cs, best, c);
      OneStandsOut(p, lookup, cs, best, c);
    }
  }

  // ---- order ----

  lemma StandsOutInAnyOrder(p: Provider, lookup: Lookup, cs: seq<Candidate>, others: seq<Candidate>, c: Candidate)
    requires multiset(cs) == multiset(others)
    ensures StandsOut(p, lookup, cs, c) <==> StandsOut(p, lookup, others, c)
  {
    var a, b := Eligible(lookup, cs), Eligible(lookup, others);
    KeepPermutes(cs, others, ByYear(lookup));
    SameElements(a, b);
    var rank := ByRank(p, lookup.title, Rank(p, lookup.title, c));
    KeepPermutes(a, b, rank);
    SameElements(Keep(a, rank), Keep(b, rank));
  }

  /** With a year or a season hint, the order of the search results does not matter. */
  lemma MatchIsOrderIndependent(p: Provider, lookup: Lookup, cs: seq<Candidate>, others: seq<Candidate>)
    requires lookup.year.Some? || lookup.season.Some?
    requires multiset(cs) == multiset(others)
    ensures Match(p, lookup, cs) == Match(p, lookup, others)
  {
    var a, b := Match(p, lookup, cs), Match(p, lookup, others);
    if a.Some? {
      MatchStandsOut(p, lookup, cs, a.value);
      StandsOutInAnyOrder(p, lookup, cs, others, a.value);
      MatchStandsOut(p, lookup, others, a.value);
    } else if b.Some? {
      MatchStandsOut(p, lookup, others, b.value);
      StandsOutInAnyOrder(p, lookup, cs, others, b.value);
      MatchStandsOut(p, lookup, cs, b.value);
    }
  }

  lemma {:induction false} DirectPermutes(r: TitleRelations, query: string, cs: seq<Candidate>,
                                          others: seq<Candidate>, rule: nat)
    requires rule < NO_DIRECT && multiset(cs) == multiset(others)
    ensures multiset(DirectFrom(r, query, cs, rule)) == multiset(DirectFrom(r, query, others, rule))
    decreases NO_DIRECT - rule
  {
    KeepPermutes(cs, others, ByRule(r, query, rule));
    SameElements(Keep(cs, ByRule(r, query, rule)), Keep(others, ByRule(r, query, rule)));
    if rule < NO_DIRECT - 1 {
      DirectPermutes(r, query, cs, others, rule + 1);
    }
  }

  lemma UndatedPermutes(p: Provider, lookup: Lookup, cs: seq<Candidate>, others: seq<Candidate>)
    requires multiset(cs) == multiset(others)
    ensures multiset(Undated(p, lookup, cs)) == multiset(Undated(p, lookup, others))
  {
    DirectPermutes(p.relations, lookup.title, cs, others, 0);
    SameElements(StrongestDirect(p.relations, lookup.title, cs), StrongestDirect(p.relations, lookup.title, others));
  }

  lemma {:induction false} FrontIsDirect(r: TitleRelations, query: string, cs: seq<Candidate>, rule: nat)
    requires rule < NO_DIRECT && cs != [] && cs[0] in DirectFrom(r, query, cs, rule)
    ensures DirectFrom(r, query, cs, rule)[0] == cs[0]
    decreases NO_DIRECT - rule
  {
    var matches := Keep(cs, ByRule(r, query, rule));
    if matches != [] || rule == NO_DIRECT - 1 {
      KeptAre(cs, ByRule(r, query, rule));
      assert ByRule(r, query, rule)(cs[0]);
      KeepFirst(cs, ByRule(r, query, rule));
    } else {
      FrontIsDirect(r, query, cs, rule + 1);
    }
  }

  /** Any competitor wins when it comes first. */
  lemma FrontWins(p: Provider, lookup: Lookup, cs: seq<Candidate>, c: Candidate) returns (others: seq<Candidate>)
    requires lookup.year.None? && lookup.season.None? && c in Undated(p, lookup, cs)
    ensures multiset(others) == multiset(cs) && Match(p, lookup, others) == Some(c)
  {
    UndatedIsAmong(p, lookup, cs, c);
    var i :| 0 <= i < |cs| && cs[i] == c;
    others := [c] + (cs[..i] + cs[i + 1..]);
    assert cs == cs[..i] + [cs[i]] + cs[i + 1..];
    UndatedPermutes(p, lookup, cs, others);
    SameElements(Undated(p, lookup, cs), Undated(p, lookup, others));
    if StrongestDirect(p.relations, lookup.title, others) != [] {
      FrontIsDirect(p.relations, lookup.title, others, 0);
    }
  }

  lemma UndatedIsAmong(p: Provider, lookup: Lookup, cs: seq<Candidate>, c: Candidate)
    requires c in Undated(p, lookup, cs)
    ensures c in cs
  {
    var best := StrongestDirectIsRank(p, lookup.title, cs);
    if best < NO_DIRECT {
      KeptAre(cs, ByRank(p, lookup.title, best));
    }
  }

  ghost predicate SameInEveryOrder(p: Provider, lookup: Lookup, cs: seq<Candidate>) {
    forall others | multiset(others) == multiset(cs) :: Match(p, lookup, others) == Match(p, lookup, cs)
  }

  /** Without a year or a season hint, the order matters exactly when different candidates compete. */
  lemma UndatedOrderMattersIff(p: Provider, lookup: Lookup, cs: seq<Candidate>)
    requires lookup.year.None? && lookup.season.None?
    ensures SameInEveryOrder(p, lookup, cs) <==>
            forall a, b | a in Undated(p, lookup, cs) && b in Undated(p, lookup, cs) :: a == b
  {
    var competing := Undated(p, lookup, cs);
    if forall a, b | a in competing && b in competing :: a == b {
      forall others | multiset(others) == multiset(cs)
        ensures Match(p, lookup, others) == Match(p, lookup, cs)
      {
        UndatedPermutes(p, lookup, cs, others);
        SameElements(competing, Undated(p, lookup, others));
        if competing != [] {
          assert competing[0] in competing && Undated(p, lookup, others)[0] in competing;
        }
      }
    } else {
      var a, b :| a in competing && b in competing && a != b;
      var first := FrontWins(p, lookup, cs, a);
      var second := FrontWins(p, lookup, cs, b);
    }
  }

  // Two results without a year that match equally well.
  const SOLARIS: Candidate := Candidate(1, Some("Solaris"), None, Some(1972))
  const REMAKE: Candidate := Candidate(2, Some("Solaris"), None, Some(2002))

  function SameTitles(): Provider {
    Provider(TitleRelations((a, b) => a == b, (a, b) => false, (a, b) => false), id => None, (id, hint) => false)
  }

  /** Which of two equally titled films is bound depends on which the provider lists first. */
  lemma FirstOfTwoWins()
    ensures Match(SameTitles(), Lookup("Solaris", None, None), [SOLARIS, REMAKE]) == Some(SOLARIS)
    ensures Match(SameTitles(), Lookup("Solaris", None, None), [REMAKE, SOLARIS]) == Some(REMAKE)
  {
    BothCompete(SOLARIS, REMAKE);
    BothCompete(REMAKE, SOLARIS);
  }

  lemma BothCompete(a: Candidate, b: Candidate)
    requires a.title == b.title == Some("Solaris") && a.originalTitle == b.originalTitle == None
    ensures Match(SameTitles(), Lookup("Solaris", None, None), [a, b]) == Some(a)
  {
    var r := SameTitles().relations;
    KeepsNone([a, b], ByRule(r, "Solaris", 0));
    assert [a, b] == [a] + [b] && [a] == [] + [a];
    KeepNext([a], ByRule(r, "Solaris", 1), b);
    KeepNext([], ByRule(r, "Solaris", 1), a);
    assert Keep([a, b], ByRule(r, "Solaris", 1)) == [a, b];
    assert DirectFrom(r, "Solaris", [a, b], 1) == [a, b];
  }
}
