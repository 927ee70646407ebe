/** Resource keys of change notifications and what they say about their audience. */
module ResourceKeys {
  import opened Decimals
  import opened Wrappers
  import opened RealtimeMessages

  const I64_MIN: int := -0x8000_0000_0000_0000
  const I64_MAX: int := 0x7FFF_FFFF_FFFF_FFFF

  predicate StartsWith(s: string, prefix: string) {
    |prefix| <= |s| && s[..|prefix|] == prefix
  }

  predicate EndsWith(s: string, suffix: string) {
    |suffix| <= |s| && s[|s| - |suffix|..] == suffix
  }

  predicate IsContinueWatching(key: string) {
    EndsWith(key, ":continue-watching")
  }

  /** A signed 64-bit decimal with an optional sign. */
  function ParseI64(s: string): Option<int> {
    var negative := s != [] && s[0] == '-';
    var digits := if s != [] && (s[0] == '-' || s[0] == '+') then s[1..] else s;
    if digits == [] || !AllDigits(digits) then None
    else
      var magnitude: int := DigitsValue(digits);
      var value := if negative then -magnitude else magnitude;
      if I64_MIN <= value <= I64_MAX then Some(value) else None
  }

  function SessionUserId(key: string): Option<int> {
    if StartsWith(key, "session:user:") then ParseI64(key[|"session:user:"|..]) else None
  }

  predicate IsLowerHex(s: string) {
    forall i | 0 <= i < |s| :: '0' <= s[i] <= '9' || 'a' <= s[i] <= 'f'
  }

  predicate IsRevokedSession(key: string) {
    if StartsWith(key, "session:web:") then
      var hash := key[|"session:web:"|..];
      |hash| == 64 && IsLowerHex(hash)
    else
      StartsWith(key, "session:native:") &&
      var id := ParseI64(key[|"session:native:"|..]);
      id.Some? && id.value > 0
  }

  /** The part before the first colon, and the rest when there is one. */
  function SplitColon(s: string): (string, Option<string>) {
    if s == [] then ([], None)
    else if s[0] == ':' then ([], Some(s[1..]))
    else
      var rest := SplitColon(s[1..]);
      ([s[0]] + rest.0, rest.1)
  }

  function VisibilityFor(key: string): Option<Visibility> {
    if StartsWith(key, "admin:") then Some(AdminOnly)
    else
      var (kind, rest) := SplitColon(key);
      if rest.None? then None
      else
        var id := ParseI64(SplitColon(rest.value).0);
        if id.None? then None
        else if kind == "library" then Some(Library(id.value))
        else if kind == "user" then Some(User(id.value))
        else None
  }

  // ---- the same on the text of a key ----

  /** A decimal is read as its number when that fits 64 bits, and not at all otherwise. */
  lemma DecimalIsRead(n: nat)
    ensures ParseI64(Decimal(n)) == if n <= I64_MAX then Some(n) else None
  {
    DecimalReadsBack(n);
    assert '0' <= Decimal(n)[0] <= '9';
  }

  lemma MinusIsRead(s: string)
    requires s != [] && s[0] == '-' && s[1..] != [] && AllDigits(s[1..])
    ensures var magnitude: int := DigitsValue(s[1..]);
            ParseI64(s) == if -magnitude >= I64_MIN then Some(-magnitude) else None
  {
  }

  /** The same with a minus sign. */
  lemma NegativeIsRead(n: int)
    requires n <= 0
    ensures ParseI64("-" + Decimal(-n)) == if n >= I64_MIN then Some(n) else None
  {
    var digits := Decimal(-n);
    DecimalReadsBack(-n);
    assert ("-" + digits)[1..] == digits;
    MinusIsRead("-" + digits);
  }

  lemma {:induction false} SplitAtColon(before: string, after: string)
    requires ':' !in before
    ensures SplitColon(before + ":" + after) == (before, Some(after))
    ensures SplitColon(before) == (before, None)
  {
    if before == [] {
      assert before + ":" + after == ":" + after;
    } else {
      SplitAtColon(before[1..], after);
      assert (before + ":" + after)[1..] == before[1..] + ":" + after;
      assert before == [before[0]] + before[1..];
    }
  }

  lemma {:induction false} SplitJoins(s: string)
    ensures ':' !in SplitColon(s).0
    ensures s == if SplitColon(s).1.Some? then SplitColon(s).0 + ":" + SplitColon(s).1.value else SplitColon(s).0
  {
    if s != [] && s[0] != ':' {
      SplitJoins(s[1..]);
      assert s == [s[0]] + s[1..];
    }
  }

  /** The key is "kind:n", or goes on after another colon. */
  ghost predicate Names(key: string, kind: string, n: int) {
    exists id | ':' !in id && ParseI64(id) == Some(n) ::
      key == kind + ":" + id || exists more :: key == kind + ":" + (id + ":" + more)
  }

  lemma NamesSplit(key: string, kind: string, n: int)
    requires ':' !in kind
    ensures Names(key, kind, n) <==>
            && SplitColon(key).0 == kind && SplitColon(key).1.Some?
            && ParseI64(SplitColon(SplitColon(key).1.value).0) == Some(n)
  {
    if id :| ':' !in id && ParseI64(id) == Some(n)
             && (key == kind + ":" + id || exists more :: key == kind + ":" + (id + ":" + more)) {
      if key == kind + ":" + id {
        SplitAtColon(kind, id);
        SplitAtColon(id, "");
      } else {
        var more :| key == kind + ":" + (id + ":" + more);
        SplitAtColon(kind, id + ":" + more);
        SplitAtColon(id, more);
      }
    }
    SplitJoins(key);
    if SplitColon(key).1.Some? {
      SplitJoins(SplitColon(key).1.value);
    }
  }

  /** Who hears of a key: administrators of an admin key, and those named by a library or user key; nobody else. */
  lemma AudienceOfKey(key: string)
    ensures VisibilityFor(key) == Some(AdminOnly) <==> "admin:" <= key
    ensures forall n :: VisibilityFor(key) == Some(Library(n)) <==> Names(key, "library", n)
    ensures forall n :: VisibilityFor(key) == Some(User(n)) <==> Names(key, "user", n)
    ensures VisibilityFor(key).Some? ==>
              VisibilityFor(key).value.AdminOnly? || VisibilityFor(key).value.Library? || VisibilityFor(key).value.User?
  {
    if "admin:" <= key {
      assert key == "admin" + ":" + key[6..];
      SplitAtColon("admin", key[6..]);
    }
    forall n
      ensures VisibilityFor(key) == Some(Library(n)) <==> Names(key, "library", n)
      ensures VisibilityFor(key) == Some(User(n)) <==> Names(key, "user", n)
    {
      NamesSplit(key, "library", n);
      NamesSplit(key, "user", n);
    }
  }

  /** Session keys: those of a user end in its id; one that was revoked ends in its hash or in a positive id. */
  lemma SessionKeys(key: string)
    ensures forall n :: SessionUserId(key) == Some(n) <==>
              exists id :: key == "session:user:" + id && ParseI64(id) == Some(n)
    ensures IsRevokedSession(key) <==>
            || (exists hash :: key == "session:web:" + hash && |hash| == 64
                               && forall c | c in hash :: c in "0123456789abcdef")
            || (exists id :: key == "session:native:" + id && ParseI64(id).Some? && ParseI64(id).value > 0)
  {
    if StartsWith(key, "session:user:") {
      assert key == "session:user:" + key[|"session:user:"|..];
    }
    forall id | key == "session:user:" + id
      ensures StartsWith(key, "session:user:") && key[|"session:user:"|..] == id
    {
    }
    RevokedSessions(key);
  }

  lemma HexDigit(c: char)
    ensures c in "0123456789abcdef" <==> '0' <= c <= '9' || 'a' <= c <= 'f'
  {
    var hex := "0123456789abcdef";
    if '0' <= c <= '9' {
      assert hex[(c - '0') as int] == c;
    } else if 'a' <= c <= 'f' {
      assert hex[10 + (c - 'a') as int] == c;
    }
  }

  lemma HexDigits(hash: string)
    ensures IsLowerHex(hash) <==> forall c | c in hash :: c in "0123456789abcdef"
  {
    if forall c | c in hash :: c in "0123456789abcdef" {
      assert forall i | 0 <= i < |hash| :: hash[i] in hash;
    }
    forall c: char
      ensures c in "0123456789abcdef" <==> '0' <= c <= '9' || 'a' <= c <= 'f'
    {
      HexDigit(c);
    }
  }

  lemma RevokedSessions(key: string)
    ensures IsRevokedSession(key) <==>
            || (exists hash :: key == "session:web:" + hash && |hash| == 64
                               && forall c | c in hash :: c in "0123456789abcdef")
            || (exists id :: key == "session:native:" + id && ParseI64(id).Some? && ParseI64(id).value > 0)
  {
    if StartsWith(key, "session:web:") {
      assert key == "session:web:" + key[|"session:web:"|..];
    }
    if StartsWith(key, "session:native:") {
      assert key == "session:native:" + key[|"session:native:"|..];
    }
    forall hash | key == "session:web:" + hash
      ensures StartsWith(key, "session:web:") && key[|"session:web:"|..] == hash
    {
    }
    forall id | key == "session:native:" + id
      ensures StartsWith(key, "session:native:") && key[|"session:native:"|..] == id
      ensures !StartsWith(key, "session:web:")
    {
      assert key[8] == 'n';
    }
    forall hash
      ensures IsLowerHex(hash) <==> forall c | c in hash :: c in "0123456789abcdef"
    {
      HexDigits(hash);
    }
  }

  lemma ContinueWatchingKeys(key: string)
    ensures IsContinueWatching(key) <==> exists owner :: key == owner + ":continue-watching"
  {
    if IsContinueWatching(key) {
      assert key == key[..|key| - |":continue-watching"|] + ":continue-watching";
    }
  }
}
