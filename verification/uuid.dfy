/** Task identifiers in their canonical text form, and the two ways the
    source turns text into identifiers: the pattern scan over `task add`
    feedback, and `Uuid::parse_str` on the tokens of `task _uuid`. */
module Uuids {
  import opened Base
  import opened Text

  const UuidLength: nat := 36

  predicate IsLowerHex(c: char) {
    '0' <= c <= '9' || 'a' <= c <= 'f'
  }

  predicate IsHex(c: char) {
    IsLowerHex(c) || 'A' <= c <= 'F'
  }

  /** Positions of the hyphens in the 8-4-4-4-12 layout. */
  predicate IsHyphenAt(i: int) {
    i == 8 || i == 13 || i == 18 || i == 23
  }

  /** `s` matches [0-9a-f]{8}-[0-9a-f]{4}-[0-9a-f]{4}-[0-9a-f]{4}-[0-9a-f]{12}. */
  predicate IsUuidText(s: string) {
    |s| == UuidLength &&
    forall i :: 0 <= i < UuidLength ==> if IsHyphenAt(i) then s[i] == '-' else IsLowerHex(s[i])
  }

  /** The same layout with hexadecimal digits of either case. */
  predicate IsUuidSpelling(s: string) {
    |s| == UuidLength &&
    forall i :: 0 <= i < UuidLength ==> if IsHyphenAt(i) then s[i] == '-' else IsHex(s[i])
  }

  /** A uuid, identified with its canonical text: lower-case, hyphenated.
      Two uuids are equal exactly when their canonical texts are. */
  type Uuid = s: string | IsUuidText(s) witness "00000000-0000-0000-0000-000000000000"

  predicate MatchesAt(text: string, i: nat) {
    i + UuidLength <= |text| && IsUuidText(text[i..i + UuidLength])
  }

  /** The leftmost position at or after `i` where the pattern matches. */
  function FirstMatchFrom(text: string, i: nat): (r: Option<nat>)
    requires i <= |text|
    ensures r.Some? ==> i <= r.value && MatchesAt(text, r.value)
    ensures r.Some? ==> forall j :: i <= j < r.value ==> !MatchesAt(text, j)
    ensures r.None? ==> forall j: nat :: i <= j ==> !MatchesAt(text, j)
    decreases |text| - i
  {
    if |text| < i + UuidLength then None
    else if MatchesAt(text, i) then Some(i)
    else FirstMatchFrom(text, i + 1)
  }

  /** The uuid that `create` takes from the tool's feedback: the first
      substring matching the pattern; NoUuidInFeedback when there is none. */
  function ExtractUuid(feedback: string): (r: Result<Uuid>)
    ensures r.Ok? ==> exists i: nat :: MatchesAt(feedback, i) && r.value == feedback[i..i + UuidLength]
                                     && forall j: nat :: j < i ==> !MatchesAt(feedback, j)
    ensures r.Err? ==> r.error == NoUuidInFeedback && forall i: nat :: !MatchesAt(feedback, i)
  {
    match FirstMatchFrom(feedback, 0)
    case None => Err(NoUuidInFeedback)
    case Some(i) => Ok(feedback[i..i + UuidLength])
  }

  /** `Uuid::parse_str` on the hyphenated spelling: digits of either case
      are accepted and the uuid is the lower-cased text. */
  function ParseUuid(s: string): (r: Option<Uuid>)
    ensures r.Some? <==> IsUuidSpelling(s)
    ensures r.Some? ==> r.value == Lower(s)
    ensures IsUuidText(s) ==> r == Some(s)
  {
    if IsUuidSpelling(s) then
      var u := Lower(s);
      assert IsUuidText(u) by {
        forall i | 0 <= i < UuidLength
          ensures if IsHyphenAt(i) then u[i] == '-' else IsLowerHex(u[i])
        {
          assert u[i] == LowerChar(s[i]);
        }
      }
      assert IsUuidText(s) ==> u == s by {
        if IsUuidText(s) {
          forall i | 0 <= i < UuidLength ensures u[i] == s[i] {
            assert !IsUpper(s[i]);
          }
        }
      }
      Some(u)
    else
      assert !IsUuidText(s) by {
        if IsUuidText(s) {
          forall i | 0 <= i < UuidLength
            ensures if IsHyphenAt(i) then s[i] == '-' else IsHex(s[i])
          { }
        }
      }
      None
  }
}
