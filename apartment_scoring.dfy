/**
 * The apartment checker's scoring: five knockout rules and weighted points for
 * the priority-1 and priority-3 criteria. `CalculateScore` is the source's
 * imperative routine (pushes into the failure list, accumulators in loops over
 * the criteria); `Evaluate` is its specification.
 */
module ApartmentScoring {

  // ---------------------------------------------------------------------------
  // Criteria

  /** The neighbourhoods that pass the location rule. */
  const Locations: seq<string> :=
    ["Ismaning", "Unterföhring", "Garching", "Bogenhausen", "Altbogenhausen", "Oberföhring"]

  /** The ids of the priority-1 criteria, in their display order. */
  const Prio1Criteria: seq<string> :=
    ["kitaSchool", "commuteDCM", "commuteWorkday", "publicTransport", "nature", "quiet",
     "landlord", "infrastructure", "doctors", "parking", "accessibilityOma"]

  /** The ids of the priority-3 criteria, in their display order. */
  const Prio3Criteria: seq<string> :=
    ["cityConnection", "soundproof", "kidsLeisure", "noChores", "flooring", "laundry",
     "modern", "cellar", "bike", "balcony", "storage", "kitchen", "airport", "aschheim",
     "fitness", "robot"]

  const Prio1Points: int := 10
  const Prio3Points: int := 3

  const BudgetLimit: int := 2500
  const MinimumRooms: int := 4

  // ---------------------------------------------------------------------------
  // Data model

  /** A numeric form field: blank until the user types a number. */
  datatype NumberField = Blank | Number(value: int)

  /** The value a relational comparison sees: a blank field coerces to 0. */
  function Coerce(field: NumberField): int
  {
    match field
    case Blank => 0
    case Number(v) => v
  }

  datatype KoCriteria = KoCriteria(
    budget: NumberField,
    rooms: NumberField,
    location: string,
    noAttic: bool,
    elevator: bool,
    isGroundFloor: bool)

  /** What the form edits: everything of an apartment but its id and date. */
  datatype Listing = Listing(
    title: string,
    link: string,
    address: string,
    ko: KoCriteria,
    prio1: map<string, bool>,
    prio3: map<string, bool>)

  datatype Apartment = Apartment(id: string, date: string, details: Listing)

  /** The knockout rules, in the order they are checked. */
  datatype KoFailure = OverBudget | TooFewRooms | WrongLocation | AtticApartment | NoElevator

  const KoRules: seq<KoFailure> := [OverBudget, TooFewRooms, WrongLocation, AtticApartment, NoElevator]

  /** The message each failed rule adds. */
  function Message(failure: KoFailure): string
  {
    match failure
    case OverBudget => "Over budget"
    case TooFewRooms => "Too few rooms"
    case WrongLocation => "Wrong location"
    case AtticApartment => "Attic apartment"
    case NoElevator => "No elevator"
  }

  /** The strings the routine pushes, one per failure. */
  function Messages(failures: seq<KoFailure>): (r: seq<string>)
    ensures |r| == |failures|
    ensures forall i :: 0 <= i < |failures| ==> r[i] == Message(failures[i])
  {
    if failures == [] then [] else [Message(failures[0])] + Messages(failures[1..])
  }

  /** Different rules push different strings. */
  lemma MessageInjective(a: KoFailure, b: KoFailure)
    ensures Message(a) == Message(b) ==> a == b
  {
    assert Message(a)[0] != Message(b)[0] || |Message(a)| != |Message(b)| || a == b;
  }

  /** The displayed list of strings determines the failures behind it. */
  lemma MessagesDetermineFailures(fs: seq<KoFailure>, gs: seq<KoFailure>)
    ensures Messages(fs) == Messages(gs) ==> fs == gs
  {
    if Messages(fs) == Messages(gs) {
      assert |fs| == |gs|;
      forall i | 0 <= i < |fs| ensures fs[i] == gs[i] {
        assert Messages(fs)[i] == Messages(gs)[i];
        MessageInjective(fs[i], gs[i]);
      }
    }
  }

  function RuleIndex(failure: KoFailure): nat
  {
    match failure
    case OverBudget => 0
    case TooFewRooms => 1
    case WrongLocation => 2
    case AtticApartment => 3
    case NoElevator => 4
  }

  // ---------------------------------------------------------------------------
  // Location rule

  /** `s.includes(sub)`: `sub` occurs in `s` at some position. */
  function Includes(s: string, sub: string): bool
  {
    (|sub| <= |s| && s[..|sub|] == sub) || (|s| > 0 && Includes(s[1..], sub))
  }

  /** `sub` occurs in `s` starting at index `i`. */
  predicate OccursAt(s: string, sub: string, i: int)
  {
    0 <= i <= |s| - |sub| && s[i..i + |sub|] == sub
  }

  /** `Includes` means an occurrence at an explicit index. */
  lemma {:induction false} IncludesAt(s: string, sub: string)
    ensures Includes(s, sub) <==> exists i :: OccursAt(s, sub, i)
  {
    if |sub| <= |s| && s[..|sub|] == sub {
      assert OccursAt(s, sub, 0);
    } else if |s| > 0 {
      IncludesAt(s[1..], sub);
      if Includes(s[1..], sub) {
        var i :| OccursAt(s[1..], sub, i);
        assert s[1..][i..i + |sub|] == s[i + 1..i + 1 + |sub|];
        assert OccursAt(s, sub, i + 1);
      }
      if i :| OccursAt(s, sub, i) {
        assert i != 0;
        assert s[1..][i - 1..i - 1 + |sub|] == s[i..i + |sub|];
        assert OccursAt(s[1..], sub, i - 1);
      }
    }
  }

  /** A string includes only strings no longer than itself. */
  lemma {:induction false} IncludesNoLonger(s: string, sub: string)
    requires Includes(s, sub)
    ensures |sub| <= |s|
  {
    if !(|sub| <= |s| && s[..|sub|] == sub) {
      IncludesNoLonger(s[1..], sub);
    }
  }

  /** `locations.some(l => location.includes(l))`. */
  function SomeIncluded(locations: seq<string>, location: string): bool
  {
    |locations| > 0 && (Includes(location, locations[0]) || SomeIncluded(locations[1..], location))
  }

  lemma {:induction false} SomeIncludedExists(locations: seq<string>, location: string)
    ensures SomeIncluded(locations, location) <==> exists l :: l in locations && Includes(location, l)
  {
    if |locations| > 0 {
      SomeIncludedExists(locations[1..], location);
      assert locations == [locations[0]] + locations[1..];
      if l :| l in locations && Includes(location, l) {
        assert l == locations[0] || l in locations[1..];
      }
    }
  }

  predicate GoodLocation(location: string)
  {
    SomeIncluded(Locations, location)
  }

  /** The location rule passes exactly when one of the six neighbourhoods occurs in the
      location; in particular every neighbourhood passes. */
  lemma GoodLocationCharacterized(location: string)
    ensures GoodLocation(location) <==> exists l :: l in Locations && Includes(location, l)
    ensures location in Locations ==> GoodLocation(location)
  {
    SomeIncludedExists(Locations, location);
    if location in Locations {
      assert location[..|location|] == location;
      assert Includes(location, location);
    }
  }

  /** The empty location and the form's "Andere" (other) option fail the location rule:
      both are shorter than every neighbourhood name. */
  lemma BlankAndOtherLocationFail()
    ensures !GoodLocation("") && !GoodLocation("Andere")
  {
    SomeIncludedExists(Locations, "");
    SomeIncludedExists(Locations, "Andere");
    forall l | l in Locations
      ensures !Includes("", l) && !Includes("Andere", l)
    {
      assert |l| > 6;
      if Includes("", l) { IncludesNoLonger("", l); }
      if Includes("Andere", l) { IncludesNoLonger("Andere", l); }
    }
  }

  // ---------------------------------------------------------------------------
  // Knockout rules

  /** Whether one rule fails for the given knockout data. */
  predicate Fails(rule: KoFailure, ko: KoCriteria)
  {
    match rule
    case OverBudget => Coerce(ko.budget) > BudgetLimit
    case TooFewRooms => Coerce(ko.rooms) < MinimumRooms
    case WrongLocation => !GoodLocation(ko.location)
    case AtticApartment => !ko.noAttic
    case NoElevator => !ko.isGroundFloor && !ko.elevator
  }

  /** The rules among `rules` that fail, in their order. */
  function FailuresAmong(rules: seq<KoFailure>, ko: KoCriteria): seq<KoFailure>
  {
    if rules == [] then []
    else (if Fails(rules[0], ko) then [rules[0]] else []) + FailuresAmong(rules[1..], ko)
  }

  /** The failure list of an apartment's knockout data. */
  function KoFailures(ko: KoCriteria): seq<KoFailure>
  {
    FailuresAmong(KoRules, ko)
  }

  /** The failure list written out rule by rule, as the routine pushes it. */
  lemma KoFailuresUnfolded(ko: KoCriteria)
    ensures KoFailures(ko)
            == (if Fails(OverBudget, ko) then [OverBudget] else [])
               + (if Fails(TooFewRooms, ko) then [TooFewRooms] else [])
               + (if Fails(WrongLocation, ko) then [WrongLocation] else [])
               + (if Fails(AtticApartment, ko) then [AtticApartment] else [])
               + (if Fails(NoElevator, ko) then [NoElevator] else [])
  {
    var r1 := [TooFewRooms, WrongLocation, AtticApartment, NoElevator];
    var r2 := [WrongLocation, AtticApartment, NoElevator];
    var r3 := [AtticApartment, NoElevator];
    var r4 := [NoElevator];
    assert KoRules[1..] == r1 && r1[1..] == r2 && r2[1..] == r3 && r3[1..] == r4 && r4[1..] == [];
    var e0 := if Fails(OverBudget, ko) then [OverBudget] else [];
    var e1 := if Fails(TooFewRooms, ko) then [TooFewRooms] else [];
    var e2 := if Fails(WrongLocation, ko) then [WrongLocation] else [];
    var e3 := if Fails(AtticApartment, ko) then [AtticApartment] else [];
    var e4 := if Fails(NoElevator, ko) then [NoElevator] else [];
    assert FailuresAmong(r4, ko) == e4 + FailuresAmong([], ko);
    assert FailuresAmong(r3, ko) == e3 + FailuresAmong(r4, ko);
    assert FailuresAmong(r2, ko) == e2 + FailuresAmong(r3, ko);
    assert FailuresAmong(r1, ko) == e1 + FailuresAmong(r2, ko);
    assert KoFailures(ko) == e0 + FailuresAmong(r1, ko);
    ConcatRegroup(e0, e1, e2, e3, e4);
  }

  /** Five concatenated pieces, regrouped from the right to the left. */
  lemma ConcatRegroup(e0: seq<KoFailure>, e1: seq<KoFailure>, e2: seq<KoFailure>,
                      e3: seq<KoFailure>, e4: seq<KoFailure>)
    ensures e0 + (e1 + (e2 + (e3 + (e4 + [])))) == e0 + e1 + e2 + e3 + e4
  {
    assert e4 + [] == e4;
  }


  lemma {:induction false} FailuresAmongIsFilter(rules: seq<KoFailure>, ko: KoCriteria)
    requires forall i, j :: 0 <= i < j < |rules| ==> RuleIndex(rules[i]) < RuleIndex(rules[j])
    ensures var fs := FailuresAmong(rules, ko);
            && (forall r :: r in fs <==> r in rules && Fails(r, ko))
            && (forall i, j :: 0 <= i < j < |fs| ==> RuleIndex(fs[i]) < RuleIndex(fs[j]))
  {
    if rules != [] {
      FailuresAmongIsFilter(rules[1..], ko);
      var rest := FailuresAmong(rules[1..], ko);
      assert forall r :: r in rules <==> r == rules[0] || r in rules[1..];
      assert forall r :: r in rest ==> RuleIndex(rules[0]) < RuleIndex(r) by {
        forall r | r in rest ensures RuleIndex(rules[0]) < RuleIndex(r) {
          var j :| 0 <= j < |rules[1..]| && rules[1..][j] == r;
          assert rules[j + 1] == r;
        }
      }
    }
  }

  /** Each failed rule contributes exactly one entry, no passing rule does, and the
      entries follow the fixed order budget, rooms, location, attic, elevator. */
  lemma KoFailuresCharacterized(ko: KoCriteria)
    ensures forall r :: r in KoFailures(ko) <==> Fails(r, ko)
    ensures forall i, j :: 0 <= i < j < |KoFailures(ko)| ==>
              RuleIndex(KoFailures(ko)[i]) < RuleIndex(KoFailures(ko)[j])
    ensures |KoFailures(ko)| <= |KoRules|
  {
    FailuresAmongIsFilter(KoRules, ko);
    forall r ensures r in KoRules { assert KoRules[RuleIndex(r)] == r; }
    var fs := KoFailures(ko);
    assert forall i :: 0 <= i < |fs| ==> RuleIndex(fs[i]) >= i by {
      forall i | 0 <= i < |fs| ensures RuleIndex(fs[i]) >= i {
        RankGrows(fs, i);
      }
    }
    if fs != [] {
      assert RuleIndex(fs[|fs| - 1]) >= |fs| - 1;
    }
  }

  lemma {:induction false} RankGrows(fs: seq<KoFailure>, i: nat)
    requires i < |fs|
    requires forall a, b :: 0 <= a < b < |fs| ==> RuleIndex(fs[a]) < RuleIndex(fs[b])
    ensures RuleIndex(fs[i]) >= i
  {
    if i > 0 {
      RankGrows(fs, i - 1);
    }
  }

  /** The elevator rule fails only for an apartment that is neither on the ground
      floor nor served by an elevator. */
  lemma ElevatorRule(ko: KoCriteria)
    ensures NoElevator in KoFailures(ko) <==> !ko.isGroundFloor && !ko.elevator
  {
    KoFailuresCharacterized(ko);
  }

  /** Budget passes up to 2500 and rooms from 4; a blank field counts as 0, so a blank
      budget passes and blank rooms knock out. */
  lemma BudgetAndRoomsRules(ko: KoCriteria)
    ensures OverBudget in KoFailures(ko) <==> Coerce(ko.budget) > 2500
    ensures TooFewRooms in KoFailures(ko) <==> Coerce(ko.rooms) < 4
    ensures ko.budget.Blank? ==> OverBudget !in KoFailures(ko)
    ensures ko.rooms.Blank? ==> TooFewRooms in KoFailures(ko)
  {
    KoFailuresCharacterized(ko);
  }

  // ---------------------------------------------------------------------------
  // Points

  /** `flags[id]` is truthy: a missing key reads as undefined, which is falsy. */
  predicate Met(flags: map<string, bool>, id: string)
  {
    id in flags && flags[id]
  }

  /** How many of `ids` are met. */
  function CountMet(ids: seq<string>, flags: map<string, bool>): nat
  {
    if ids == [] then 0
    else CountMet(ids[..|ids| - 1], flags) + (if Met(flags, ids[|ids| - 1]) then 1 else 0)
  }

  lemma {:induction false} CountMetBounds(ids: seq<string>, flags: map<string, bool>)
    ensures CountMet(ids, flags) <= |ids|
    ensures CountMet(ids, flags) == |ids| <==> forall i :: 0 <= i < |ids| ==> Met(flags, ids[i])
    ensures CountMet(ids, flags) == 0 <==> forall i :: 0 <= i < |ids| ==> !Met(flags, ids[i])
  {
    if ids != [] {
      var init := ids[..|ids| - 1];
      CountMetBounds(init, flags);
      assert forall i :: 0 <= i < |init| ==> init[i] == ids[i];
    }
  }

  /** The result of scoring one apartment. */
  datatype ScoreCard = ScoreCard(score: int, maxScore: int, koFailures: seq<KoFailure>, isKo: bool)

  /** The specification of the scoring routine. */
  function Evaluate(apt: Apartment): (r: ScoreCard)
    ensures r.maxScore == MaxScore
    ensures 0 <= r.score <= r.maxScore
    ensures r.isKo <==> |r.koFailures| > 0
  {
    CountMetBounds(Prio1Criteria, apt.details.prio1);
    CountMetBounds(Prio3Criteria, apt.details.prio3);
    var failures := KoFailures(apt.details.ko);
    ScoreCard(
      Prio1Points * CountMet(Prio1Criteria, apt.details.prio1)
        + Prio3Points * CountMet(Prio3Criteria, apt.details.prio3),
      Prio1Points * |Prio1Criteria| + Prio3Points * |Prio3Criteria|,
      failures,
      |failures| > 0)
  }

  /** The number of points an apartment can reach: 11 * 10 + 16 * 3. */
  const MaxScore: int := 158

  /** The score is between 0 and the fixed maximum; it is the maximum exactly when every
      criterion is met and 0 exactly when none is. */
  lemma ScoreBounds(apt: Apartment)
    ensures Evaluate(apt).maxScore == MaxScore
    ensures 0 <= Evaluate(apt).score <= Evaluate(apt).maxScore
    ensures Evaluate(apt).score == MaxScore <==>
              (forall i :: 0 <= i < |Prio1Criteria| ==> Met(apt.details.prio1, Prio1Criteria[i]))
              && (forall i :: 0 <= i < |Prio3Criteria| ==> Met(apt.details.prio3, Prio3Criteria[i]))
    ensures Evaluate(apt).score == 0 <==>
              (forall i :: 0 <= i < |Prio1Criteria| ==> !Met(apt.details.prio1, Prio1Criteria[i]))
              && (forall i :: 0 <= i < |Prio3Criteria| ==> !Met(apt.details.prio3, Prio3Criteria[i]))
  {
    CountMetBounds(Prio1Criteria, apt.details.prio1);
    CountMetBounds(Prio3Criteria, apt.details.prio3);
  }

  /** An apartment is knocked out exactly when at least one rule fails, and its card
      lists exactly the failing rules. */
  lemma KnockedOutIffSomeRuleFails(apt: Apartment)
    ensures Evaluate(apt).isKo <==> exists rule :: Fails(rule, apt.details.ko)
    ensures forall rule :: rule in Evaluate(apt).koFailures <==> Fails(rule, apt.details.ko)
  {
    KoFailuresCharacterized(apt.details.ko);
    var fs := Evaluate(apt).koFailures;
    if fs != [] {
      assert fs[0] in fs;
    }
  }

  /** Knockouts do not change the score: it depends on the priority criteria only. */
  lemma ScoreIgnoresKnockouts(apt: Apartment, ko: KoCriteria)
    ensures Evaluate(apt.(details := apt.details.(ko := ko))).score == Evaluate(apt).score
    ensures Evaluate(apt.(details := apt.details.(ko := ko))).isKo == (KoFailures(ko) != [])
  {
  }

  /** The knockout half of the scoring routine: each failed rule pushes its entry, in
      the order budget, rooms, location, attic, elevator. */
  method CheckKnockouts(ko: KoCriteria) returns (koFailures: seq<KoFailure>)
    ensures koFailures == KoFailures(ko)
  {
    KoFailuresUnfolded(ko);
    koFailures := [];
    if Coerce(ko.budget) > BudgetLimit { koFailures := koFailures + [OverBudget]; }
    if Coerce(ko.rooms) < MinimumRooms { koFailures := koFailures + [TooFewRooms]; }
    if !SomeIncluded(Locations, ko.location) { koFailures := koFailures + [WrongLocation]; }
    if !ko.noAttic { koFailures := koFailures + [AtticApartment]; }
    if !ko.isGroundFloor && !ko.elevator { koFailures := koFailures + [NoElevator]; }
  }

  /** The scoring routine: knockout rules pushed in order, then points gathered over the
      priority-1 and priority-3 criteria. */
  method CalculateScore(apt: Apartment) returns (card: ScoreCard)
    ensures card == Evaluate(apt)
    ensures card.isKo <==> card.koFailures != []
    ensures card.maxScore == MaxScore
  {
    var koFailures := CheckKnockouts(apt.details.ko);

    var score := 0;
    var maxScore := 0;

    for i := 0 to |Prio1Criteria|
      invariant score == Prio1Points * CountMet(Prio1Criteria[..i], apt.details.prio1)
      invariant maxScore == Prio1Points * i
    {
      maxScore := maxScore + Prio1Points;
      if Met(apt.details.prio1, Prio1Criteria[i]) { score := score + Prio1Points; }
      assert Prio1Criteria[..i + 1][..i] == Prio1Criteria[..i];
    }
    assert Prio1Criteria[..|Prio1Criteria|] == Prio1Criteria;

    for i := 0 to |Prio3Criteria|
      invariant score == Prio1Points * CountMet(Prio1Criteria, apt.details.prio1)
                         + Prio3Points * CountMet(Prio3Criteria[..i], apt.details.prio3)
      invariant maxScore == Prio1Points * |Prio1Criteria| + Prio3Points * i
    {
      maxScore := maxScore + Prio3Points;
      if Met(apt.details.prio3, Prio3Criteria[i]) { score := score + Prio3Points; }
      assert Prio3Criteria[..i + 1][..i] == Prio3Criteria[..i];
    }
    assert Prio3Criteria[..|Prio3Criteria|] == Prio3Criteria;

    card := ScoreCard(score, maxScore, koFailures, |koFailures| > 0);
  }

  // ---------------------------------------------------------------------------
  // The empty form

  /** Every criterion of a list, unchecked. */
  function Unchecked(ids: seq<string>): map<string, bool>
  {
    map id | id in ids :: false
  }

  /** The form's template: blank numbers, no location, no attic, no elevator. */
  const InitialListing: Listing :=
    Listing("", "", "", KoCriteria(Blank, Blank, "", true, false, false),
            Unchecked(Prio1Criteria), Unchecked(Prio3Criteria))

  /** The empty form's listing knocks out on rooms, location and elevator, and scores
      nothing. */
  lemma InitialListingScore(id: string, date: string)
    ensures Evaluate(Apartment(id, date, InitialListing)).koFailures
            == [TooFewRooms, WrongLocation, NoElevator]
    ensures Evaluate(Apartment(id, date, InitialListing)).score == 0
  {
    InitialKnockouts();
    UncheckedCountsNothing(Prio1Criteria);
    UncheckedCountsNothing(Prio3Criteria);
  }

  /** The empty form's knockout data fails rooms, location and elevator. */
  lemma InitialKnockouts()
    ensures KoFailures(InitialListing.ko) == [TooFewRooms, WrongLocation, NoElevator]
  {
    var ko := InitialListing.ko;
    KoFailuresUnfolded(ko);
    GoodLocationCharacterized("");
    assert !Fails(OverBudget, ko) && Fails(TooFewRooms, ko) && Fails(WrongLocation, ko);
    assert !Fails(AtticApartment, ko) && Fails(NoElevator, ko);
  }

  /** No criterion of an all-unchecked map is met. */
  lemma UncheckedCountsNothing(ids: seq<string>)
    ensures CountMet(ids, Unchecked(ids)) == 0
  {
    CountMetBounds(ids, Unchecked(ids));
  }
}
