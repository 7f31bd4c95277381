/** The messages shown next to the estimate. */
module Verdict {
  import opened Vehicle

  datatype Message =
    | Success(manufacturer: string, bodyType: string, year: int)  // "vehicle analysed" banner
    | DieselBonus
    | UtilityBonus
    | AgeWarning
    | Atypical                                                      // the error for a non-positive estimate

  /** The body types that earn the utility note. */
  const UtilityTypes: set<string> := {"pickup", "truck"}

  /** ASCII upper-casing, as applied to the manufacturer in the banner. */
  function Upper(s: string): (r: string)
    ensures |r| == |s|
    ensures forall i :: 0 <= i < |r| ==> !('a' <= r[i] <= 'z')
    ensures forall i :: 0 <= i < |r| && !('a' <= s[i] <= 'z') ==> r[i] == s[i]
    ensures forall i :: 0 <= i < |s| && 'a' <= s[i] <= 'z' ==>
              'A' <= r[i] <= 'Z' && r[i] as int - 'A' as int == s[i] as int - 'a' as int
  {
    seq(|s|, i requires 0 <= i < |s| =>
      if 'a' <= s[i] <= 'z' then (s[i] as int - 32) as char else s[i])
  }

  /** The position of a message kind in the display order. */
  function Rank(m: Message): nat {
    match m
    case Success(_, _, _) => 0
    case DieselBonus => 1
    case UtilityBonus => 2
    case AgeWarning => 3
    case Atypical => 4
  }

  /** The messages for an estimate `price` of the vehicle `x` aged `carAge`,
      in display order. */
  function Messages(price: real, x: RawInput, carAge: int): (r: seq<Message>)
    ensures price > 0.0 ==>
              && |r| >= 1 && r[0] == Success(Upper(x.manufacturer), x.bodyType, x.year)
              && (DieselBonus in r <==> x.fuel == "diesel")
              && (UtilityBonus in r <==> x.bodyType in UtilityTypes)
              && (AgeWarning in r <==> carAge > 15)
              && Atypical !in r
    ensures price > 0.0 ==>
              && (forall i :: 1 <= i < |r| ==> !r[i].Success?)
              && |r| == 1 + (if x.fuel == "diesel" then 1 else 0)
                          + (if x.bodyType in UtilityTypes then 1 else 0)
                          + (if carAge > 15 then 1 else 0)
    ensures forall i, j :: 0 <= i < j < |r| ==> Rank(r[i]) < Rank(r[j])
    ensures price <= 0.0 ==> r == [Atypical]
  {
    if price > 0.0 then
      [Success(Upper(x.manufacturer), x.bodyType, x.year)]
      + (if x.fuel == "diesel" then [DieselBonus] else [])
      + (if x.bodyType in UtilityTypes then [UtilityBonus] else [])
      + (if carAge > 15 then [AgeWarning] else [])
    else
      [Atypical]
  }

  /** Exactly one of the banner and the error appears, never both, and at
      most four messages are shown. */
  lemma BannerOrError(price: real, x: RawInput, carAge: int)
    ensures var r := Messages(price, x, carAge);
            && |r| <= 4
            && ((exists i :: 0 <= i < |r| && r[i].Success?) <==> price > 0.0)
            && (Atypical in r <==> price <= 0.0)
  {
    var r := Messages(price, x, carAge);
    if price > 0.0 {
      assert r[0].Success?;
    } else {
      assert r == [Atypical];
    }
  }

  /** For a year the form accepts, the age warning appears exactly for a
      positive estimate of a car built before 2010. */
  lemma AgeWarningByYear(price: real, x: RawInput)
    requires MinYear <= x.year <= MaxYear
    ensures AgeWarning in Messages(price, x, CarAge(x.year)) <==> price > 0.0 && x.year < 2010
  {
  }
}
