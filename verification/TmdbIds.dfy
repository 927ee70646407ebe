/** TMDB identifiers as metadata documents spell them. */
module TmdbIds {
  import opened Decimals
  import opened Text
  import opened Wrappers

  const U64_MAX: nat := 0xFFFF_FFFF_FFFF_FFFF
  const TMDB: string := "tmdb"

  function ParseU64(s: string): Option<nat> {
    var digits := if s != "" && s[0] == '+' then s[1..] else s;
    if digits == "" || !AllDigits(digits) || DigitsValue(digits) > U64_MAX then None
    else Some(DigitsValue(digits))
  }

  /** The number a value spells, zero and everything unreadable aside. */
  function TmdbNumber(value: string): Option<nat> {
    var number := ParseU64(Trim(value));
    if number.Some? && number.value > 0 then number else None
  }

  function NormalizeTmdbId(value: string): Option<string> {
    var number := TmdbNumber(value);
    if number.Some? then Some(Decimal(number.value)) else None
  }

  lemma DigitsAreNotTrimmed(s: string)
    requires AllDigits(s)
    ensures Trim(s) == s
  {
    forall i | 0 <= i < |s|
      ensures !IsWhitespace(s[i])
    {
      assert '0' <= s[i] <= '9';
    }
  }

  lemma DecimalSpells(n: nat)
    requires 0 < n <= U64_MAX
    ensures TmdbNumber(Decimal(n)) == Some(n)
  {
    DecimalReadsBack(n);
    DigitsAreNotTrimmed(Decimal(n));
    assert '0' <= Decimal(n)[0];
  }

  /** Zero and what does not fit 64 bits are no identifiers. */
  lemma OtherDecimalsSpellNothing(n: nat)
    requires n == 0 || n > U64_MAX
    ensures TmdbNumber(Decimal(n)) == None
  {
    DecimalReadsBack(n);
    DigitsAreNotTrimmed(Decimal(n));
    assert '0' <= Decimal(n)[0];
  }

  /** Whatever spells a number is decimal digits, with a plus sign at most and space around. */
  lemma OnlyDigitsSpell(value: string)
    ensures TmdbNumber(value).Some? <==>
            && Trim(value) != ""
            && var digits := if Trim(value)[0] == '+' then Trim(value)[1..] else Trim(value);
               && digits != "" && (forall c | c in digits :: c in "0123456789")
               && AllDigits(digits) && 0 < DigitsValue(digits) <= U64_MAX
    ensures TmdbNumber(value).Some? ==>
              var digits := if Trim(value)[0] == '+' then Trim(value)[1..] else Trim(value);
              AllDigits(digits) && TmdbNumber(value).value == DigitsValue(digits)
  {
    forall c: char
      ensures c in "0123456789" <==> '0' <= c <= '9'
    {
      var all := "0123456789";
      if '0' <= c <= '9' {
        assert all[(c - '0') as int] == c;
      }
    }
  }

  /** The result of normalizing spells the same number, so normalizing it again changes nothing. */
  lemma NormalFormIsCanonical(a: string)
    requires NormalizeTmdbId(a).Some?
    ensures TmdbNumber(NormalizeTmdbId(a).value) == TmdbNumber(a)
    ensures NormalizeTmdbId(NormalizeTmdbId(a).value) == NormalizeTmdbId(a)
  {
    DecimalSpells(TmdbNumber(a).value);
  }

  /** Two spellings are one identifier exactly when they spell the same number. */
  lemma SameIdentifierSameNumber(a: string, b: string)
    ensures NormalizeTmdbId(a) == NormalizeTmdbId(b) <==> TmdbNumber(a) == TmdbNumber(b)
  {
    if TmdbNumber(a).Some? {
      DecimalReadsBack(TmdbNumber(a).value);
    }
    if TmdbNumber(b).Some? {
      DecimalReadsBack(TmdbNumber(b).value);
    }
  }

  datatype ProviderId = ProviderId(provider: string, value: string)

  datatype Identity = NoId | Id(id: string) | Conflicting

  function TmdbIdsOf(ids: seq<ProviderId>): seq<string> {
    if ids == [] then []
    else
      var first := NormalizeTmdbId(ids[0].value);
      (if EqualIgnoringAsciiCase(ids[0].provider, TMDB) && first.Some? then [first.value] else []) + TmdbIdsOf(ids[1..])
  }

  /** The one TMDB identifier a document declares, if it declares one and no other. */
  function IdentityOf(ids: seq<ProviderId>): Identity {
    var found := TmdbIdsOf(ids);
    if found == [] then NoId
    else if forall i | 0 <= i < |found| :: found[i] == found[0] then Id(found[0])
    else Conflicting
  }

  predicate Declares(ids: seq<ProviderId>, id: string) {
    exists i | 0 <= i < |ids| :: EqualIgnoringAsciiCase(ids[i].provider, TMDB)
        && NormalizeTmdbId(ids[i].value) == Some(id)
  }

  lemma {:induction false} DeclaredIds(ids: seq<ProviderId>, id: string)
    ensures id in TmdbIdsOf(ids) <==> Declares(ids, id)
  {
    if ids != [] {
      DeclaredIds(ids[1..], id);
      assert forall i | 0 < i < |ids| :: ids[i] == ids[1..][i - 1];
      if Declares(ids[1..], id) {
        var i :| 0 <= i < |ids[1..]| && EqualIgnoringAsciiCase(ids[1..][i].provider, TMDB)
                 && NormalizeTmdbId(ids[1..][i].value) == Some(id);
        assert ids[i + 1] == ids[1..][i];
      }
    }
  }

  /** A document has an identity exactly when all its TMDB spellings agree, in whatever order they stand. */
  lemma IdentityIsAgreement(ids: seq<ProviderId>, id: string)
    ensures IdentityOf(ids) == Id(id) <==>
            Declares(ids, id) && forall other | Declares(ids, other) :: other == id
    ensures IdentityOf(ids) == NoId ==> !Declares(ids, id)
  {
    var found := TmdbIdsOf(ids);
    forall other
      ensures other in found <==> Declares(ids, other)
    {
      DeclaredIds(ids, other);
    }
    assert forall i | 0 <= i < |found| :: found[i] in found;
  }
}
