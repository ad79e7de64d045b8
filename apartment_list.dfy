/**
 * The apartment checker's list: the ranking shown to the user (a copy of the list
 * sorted with the knockout-last, score-descending comparator) and the two updates,
 * save (edit or add) and delete. Ids and timestamps, which the source draws from
 * `crypto.randomUUID()` and `new Date()`, are parameters; so is the answer to the
 * delete confirmation dialog.
 */
module ApartmentList {
  import opened ApartmentScoring

  datatype Option<T> = None | Some(value: T)

  // ---------------------------------------------------------------------------
  // Ranking

  /** Where an apartment ranks: its knockout flag and its score. */
  function Rank(a: Apartment): (bool, int)
  {
    (Evaluate(a).isKo, Evaluate(a).score)
  }

  /** The comparator on ranks: a knockout goes after a non-knockout, and otherwise the
      higher score goes first (`scoreB - scoreA`). */
  function CompareRanks(x: (bool, int), y: (bool, int)): int
  {
    if x.0 && !y.0 then 1
    else if !x.0 && y.0 then -1
    else y.1 - x.1
  }

  /** The sort comparator: negative when `a` goes first, positive when `b` does. */
  function Compare(a: Apartment, b: Apartment): int
  {
    CompareRanks(Rank(a), Rank(b))
  }

  /** The comparator is antisymmetric, ties exactly the equally ranked, and "not after"
      is transitive: it is a consistent comparator as JavaScript's sort requires. */
  lemma CompareRanksIsConsistent(x: (bool, int), y: (bool, int), z: (bool, int))
    ensures CompareRanks(x, y) == -CompareRanks(y, x)
    ensures CompareRanks(x, y) == 0 <==> x == y
    ensures CompareRanks(x, y) <= 0 && CompareRanks(y, z) <= 0 ==> CompareRanks(x, z) <= 0
  {
  }

  /** Every pair of consecutive-or-not positions is in comparator order under `rank`. */
  ghost predicate SortedBy(s: seq<Apartment>, rank: Apartment -> (bool, int))
  {
    forall i, j :: 0 <= i < j < |s| ==> CompareRanks(rank(s[i]), rank(s[j])) <= 0
  }

  /** Inserts `x` before the first element it does not rank after. */
  function InsertBy(x: Apartment, s: seq<Apartment>, rank: Apartment -> (bool, int)): seq<Apartment>
  {
    if s == [] then [x]
    else if CompareRanks(rank(x), rank(s[0])) <= 0 then [x] + s
    else [s[0]] + InsertBy(x, s[1..], rank)
  }

  /** A stable insertion sort under `rank`. */
  function SortBy(s: seq<Apartment>, rank: Apartment -> (bool, int)): seq<Apartment>
  {
    if s == [] then [] else InsertBy(s[0], SortBy(s[1..], rank), rank)
  }

  /** `[...apartments].sort(comparator)`: JavaScript's sort is stable, so it is this
      insertion sort under the apartments' ranks. */
  function SortedApartments(apartments: seq<Apartment>): (r: seq<Apartment>)
    ensures multiset(r) == multiset(apartments)
    ensures SortedBy(r, Rank)
  {
    SortByOrdered(apartments, Rank);
    SortBy(apartments, Rank)
  }

  lemma {:induction false} InsertByMultiset(x: Apartment, s: seq<Apartment>, rank: Apartment -> (bool, int))
    ensures multiset(InsertBy(x, s, rank)) == multiset(s) + multiset{x}
  {
    if s != [] && CompareRanks(rank(x), rank(s[0])) > 0 {
      InsertByMultiset(x, s[1..], rank);
      assert s == [s[0]] + s[1..];
    }
  }

  lemma SortedByTail(s: seq<Apartment>, rank: Apartment -> (bool, int))
    requires s != [] && SortedBy(s, rank)
    ensures SortedBy(s[1..], rank)
  {
    forall i, j | 0 <= i < j < |s[1..]|
      ensures CompareRanks(rank(s[1..][i]), rank(s[1..][j])) <= 0
    {
      assert s[1..][i] == s[i + 1] && s[1..][j] == s[j + 1];
    }
  }

  lemma {:induction false} InsertBySorted(x: Apartment, s: seq<Apartment>, rank: Apartment -> (bool, int))
    requires SortedBy(s, rank)
    ensures SortedBy(InsertBy(x, s, rank), rank)
  {
    if s == [] {
    } else if CompareRanks(rank(x), rank(s[0])) <= 0 {
      InsertAtFrontSorted(x, s, rank);
    } else {
      SortedByTail(s, rank);
      InsertBySorted(x, s[1..], rank);
      InsertAfterHeadSorted(x, s, rank);
    }
  }

  /** Placing `x` before a sorted list whose head it does not rank after keeps it sorted. */
  lemma InsertAtFrontSorted(x: Apartment, s: seq<Apartment>, rank: Apartment -> (bool, int))
    requires SortedBy(s, rank) && s != [] && CompareRanks(rank(x), rank(s[0])) <= 0
    ensures SortedBy([x] + s, rank)
  {
    forall j | 0 < j < |s| ensures CompareRanks(rank(x), rank(s[j])) <= 0 {
      CompareRanksIsConsistent(rank(x), rank(s[0]), rank(s[j]));
    }
    var r := [x] + s;
    forall i, j | 0 <= i < j < |r| ensures CompareRanks(rank(r[i]), rank(r[j])) <= 0 {
      if i > 0 {
        assert r[i] == s[i - 1] && r[j] == s[j - 1];
      }
    }
  }

  /** When `x` ranks after the head, the head followed by the sorted insertion into the
      tail is sorted. */
  lemma InsertAfterHeadSorted(x: Apartment, s: seq<Apartment>, rank: Apartment -> (bool, int))
    requires SortedBy(s, rank) && s != [] && CompareRanks(rank(x), rank(s[0])) > 0
    requires SortedBy(InsertBy(x, s[1..], rank), rank)
    ensures SortedBy([s[0]] + InsertBy(x, s[1..], rank), rank)
  {
    var rest := InsertBy(x, s[1..], rank);
    InsertByMultiset(x, s[1..], rank);
    CompareRanksIsConsistent(rank(x), rank(s[0]), rank(s[0]));
    forall j | 0 <= j < |rest| ensures CompareRanks(rank(s[0]), rank(rest[j])) <= 0 {
      assert rest[j] in multiset(rest);
      if rest[j] != x {
        assert rest[j] in multiset(s[1..]);
        var k :| 0 <= k < |s[1..]| && s[1..][k] == rest[j];
        assert s[k + 1] == rest[j];
      }
    }
    ConsSorted(s[0], rest, rank);
  }

  /** A head that ranks no later than every element of a sorted list can go in front. */
  lemma ConsSorted(h: Apartment, rest: seq<Apartment>, rank: Apartment -> (bool, int))
    requires SortedBy(rest, rank)
    requires forall j :: 0 <= j < |rest| ==> CompareRanks(rank(h), rank(rest[j])) <= 0
    ensures SortedBy([h] + rest, rank)
  {
    var r := [h] + rest;
    forall i, j | 0 <= i < j < |r| ensures CompareRanks(rank(r[i]), rank(r[j])) <= 0 {
      if i == 0 {
        assert r[j] == rest[j - 1];
      } else {
        assert r[i] == rest[i - 1] && r[j] == rest[j - 1];
      }
    }
  }



  lemma {:induction false} SortByOrdered(s: seq<Apartment>, rank: Apartment -> (bool, int))
    ensures multiset(SortBy(s, rank)) == multiset(s)
    ensures SortedBy(SortBy(s, rank), rank)
  {
    if s != [] {
      SortByOrdered(s[1..], rank);
      InsertByMultiset(s[0], SortBy(s[1..], rank), rank);
      InsertBySorted(s[0], SortBy(s[1..], rank), rank);
      assert s == [s[0]] + s[1..];
    }
  }

  /** The ranking is a permutation of the list with every non-knockout apartment
      before every knockout one and, within each group, scores non-increasing. */
  lemma SortedApartmentsOrdered(apartments: seq<Apartment>)
    ensures multiset(SortedApartments(apartments)) == multiset(apartments)
    ensures var r := SortedApartments(apartments);
            forall i, j :: 0 <= i < j < |r| ==>
              && Compare(r[i], r[j]) <= 0
              && !(Rank(r[i]).0 && !Rank(r[j]).0)
              && (Rank(r[i]).0 == Rank(r[j]).0 ==> Rank(r[i]).1 >= Rank(r[j]).1)
  {
    SortByOrdered(apartments, Rank);
  }

  /** The apartments of one rank, in list order. */
  function OfRank(s: seq<Apartment>, rank: Apartment -> (bool, int), k: (bool, int)): seq<Apartment>
  {
    if s == [] then []
    else (if rank(s[0]) == k then [s[0]] else []) + OfRank(s[1..], rank, k)
  }

  lemma {:induction false} InsertByOfRank(x: Apartment, s: seq<Apartment>, rank: Apartment -> (bool, int), k: (bool, int))
    ensures OfRank(InsertBy(x, s, rank), rank, k) == (if rank(x) == k then [x] else []) + OfRank(s, rank, k)
  {
    if s == [] {
      assert OfRank([x], rank, k) == (if rank(x) == k then [x] else []) + OfRank([], rank, k);
    } else if CompareRanks(rank(x), rank(s[0])) <= 0 {
      assert ([x] + s)[1..] == s;
    } else {
      InsertByOfRank(x, s[1..], rank, k);
      CompareRanksIsConsistent(rank(x), rank(s[0]), rank(s[0]));
      assert ([s[0]] + InsertBy(x, s[1..], rank))[1..] == InsertBy(x, s[1..], rank);
    }
  }

  lemma {:induction false} SortByStable(s: seq<Apartment>, rank: Apartment -> (bool, int), k: (bool, int))
    ensures OfRank(SortBy(s, rank), rank, k) == OfRank(s, rank, k)
  {
    if s != [] {
      SortByStable(s[1..], rank, k);
      InsertByOfRank(s[0], SortBy(s[1..], rank), rank, k);
    }
  }

  /** The sort is stable: apartments of equal rank keep their relative order. */
  lemma SortedApartmentsStable(apartments: seq<Apartment>, k: (bool, int))
    ensures OfRank(SortedApartments(apartments), Rank, k) == OfRank(apartments, Rank, k)
  {
    SortByStable(apartments, Rank, k);
  }

  // ---------------------------------------------------------------------------
  // Save

  /** `if (editingId)`: an id is being edited when it is present and not empty. */
  predicate Editing(editingId: Option<string>)
  {
    editingId.Some? && editingId.value != ""
  }

  /** `apartments.map(a => a.id === id ? entry : a)`. */
  function ReplaceById(apartments: seq<Apartment>, id: string, entry: Apartment): (r: seq<Apartment>)
    ensures |r| == |apartments|
    ensures forall i :: 0 <= i < |r| ==> r[i] == if apartments[i].id == id then entry else apartments[i]
  {
    if apartments == [] then []
    else [if apartments[0].id == id then entry else apartments[0]]
         + ReplaceById(apartments[1..], id, entry)
  }

  /** Saving either rejects an untitled form or returns the new list. */
  datatype SaveResult = TitleMissing | Saved(apartments: seq<Apartment>)

  /** `handleSave`: an untitled form is refused; an edit overwrites every entry with the
      edited id by the form, keeping that id and stamping `now`; otherwise the form is
      appended under `newId`. */
  function Save(apartments: seq<Apartment>, form: Listing, editingId: Option<string>,
                newId: string, now: string): (r: SaveResult)
    ensures r.TitleMissing? <==> form.title == ""
    ensures r.Saved? && Editing(editingId) ==>
              && |r.apartments| == |apartments|
              && forall i :: 0 <= i < |apartments| ==>
                   r.apartments[i] == if apartments[i].id == editingId.value
                                      then Apartment(editingId.value, now, form)
                                      else apartments[i]
    ensures r.Saved? && !Editing(editingId) ==>
              r.apartments == apartments + [Apartment(newId, now, form)]
  {
    if form.title == "" then TitleMissing
    else if Editing(editingId) then
      Saved(ReplaceById(apartments, editingId.value, Apartment(editingId.value, now, form)))
    else Saved(apartments + [Apartment(newId, now, form)])
  }

  /** An edit keeps every entry's id, changes only entries carrying the edited id, and
      leaves the list as it was when no entry carries it. */
  lemma EditKeepsIds(apartments: seq<Apartment>, form: Listing, editingId: string, newId: string, now: string)
    requires form.title != "" && editingId != ""
    ensures var r := Save(apartments, form, Some(editingId), newId, now).apartments;
            && |r| == |apartments|
            && (forall i :: 0 <= i < |r| ==> r[i].id == apartments[i].id)
            && (forall i :: 0 <= i < |r| && r[i] != apartments[i] ==> apartments[i].id == editingId)
            && ((forall i :: 0 <= i < |apartments| ==> apartments[i].id != editingId) ==> r == apartments)
  {
    var r := Save(apartments, form, Some(editingId), newId, now).apartments;
    if forall i :: 0 <= i < |apartments| ==> apartments[i].id != editingId {
      assert forall i :: 0 <= i < |r| ==> r[i] == apartments[i];
    }
  }

  /** An add appends exactly one entry, the form under the new id, at the end. */
  lemma AddAppendsOne(apartments: seq<Apartment>, form: Listing, newId: string, now: string)
    requires form.title != ""
    ensures var r := Save(apartments, form, None, newId, now).apartments;
            && |r| == |apartments| + 1
            && r[..|apartments|] == apartments
            && r[|apartments|] == Apartment(newId, now, form)
  {
  }

  // ---------------------------------------------------------------------------
  // Delete

  /** `apartments.filter(a => a.id !== id)`. */
  function RemoveId(apartments: seq<Apartment>, id: string): (r: seq<Apartment>)
    ensures |r| <= |apartments|
    ensures forall i :: 0 <= i < |r| ==> r[i].id != id
    ensures (forall i :: 0 <= i < |apartments| ==> apartments[i].id != id) ==> r == apartments
  {
    if apartments == [] then []
    else (if apartments[0].id != id then [apartments[0]] else []) + RemoveId(apartments[1..], id)
  }

  /** `handleDelete`: when the user confirms, the entries with the id are removed. */
  function Delete(apartments: seq<Apartment>, id: string, confirmed: bool): (r: seq<Apartment>)
    ensures !confirmed ==> r == apartments
    ensures confirmed ==> forall i :: 0 <= i < |r| ==> r[i].id != id
    ensures |r| <= |apartments|
  {
    if confirmed then RemoveId(apartments, id) else apartments
  }

  /** `a` is `b` with some entries left out, the rest in the same order. */
  ghost predicate Subsequence(a: seq<Apartment>, b: seq<Apartment>)
    decreases |b|
  {
    if a == [] then true
    else if b == [] then false
    else if a[0] == b[0] then Subsequence(a[1..], b[1..])
    else Subsequence(a, b[1..])
  }

  /** Removal drops exactly the entries with the id: every other entry stays, as often
      as before. */
  lemma {:induction false} RemoveIdCounts(apartments: seq<Apartment>, id: string)
    ensures forall a :: multiset(RemoveId(apartments, id))[a]
                        == if a.id == id then 0 else multiset(apartments)[a]
  {
    if apartments != [] {
      var h := apartments[0];
      var rest := RemoveId(apartments[1..], id);
      RemoveIdCounts(apartments[1..], id);
      assert apartments == [h] + apartments[1..];
      assert multiset(apartments) == multiset{h} + multiset(apartments[1..]);
      var front := if h.id != id then [h] else [];
      assert multiset(RemoveId(apartments, id)) == multiset(front) + multiset(rest);
    }
  }

  /** ... and in the same order. */
  lemma {:induction false} RemoveIdKeepsOrder(apartments: seq<Apartment>, id: string)
    ensures Subsequence(RemoveId(apartments, id), apartments)
  {
    if apartments != [] {
      RemoveIdKeepsOrder(apartments[1..], id);
      var rest := RemoveId(apartments[1..], id);
      if apartments[0].id != id {
        assert ([apartments[0]] + rest)[1..] == rest;
      } else {
        assert RemoveId(apartments, id) == rest;
        SubsequenceOfTail(rest, apartments);
      }
    }
  }

  lemma {:induction false} SubsequenceOfTail(a: seq<Apartment>, b: seq<Apartment>)
    requires b != [] && Subsequence(a, b[1..])
    ensures Subsequence(a, b)
    decreases |a| + |b|
  {
    if a != [] && a[0] == b[0] {
      SubsequenceWeaken(a, b[1..]);
    }
  }

  lemma {:induction false} SubsequenceWeaken(a: seq<Apartment>, b: seq<Apartment>)
    requires a != [] && Subsequence(a, b)
    ensures Subsequence(a[1..], b)
    decreases |a| + |b|
  {
    if b != [] {
      if a[0] == b[0] {
        if a[1..] != [] {
          SubsequenceWeaken(a[1..], b[1..]);
          SubsequenceOfTail(a[1..], b);
        }
      } else {
        SubsequenceWeaken(a, b[1..]);
        SubsequenceOfTail(a[1..], b);
      }
    }
  }

  /** Deleting an apartment that was just added under a fresh id gives back the list. */
  lemma {:induction false} DeleteUndoesAdd(apartments: seq<Apartment>, form: Listing, newId: string, now: string)
    requires form.title != ""
    requires forall i :: 0 <= i < |apartments| ==> apartments[i].id != newId
    ensures Delete(Save(apartments, form, None, newId, now).apartments, newId, true) == apartments
  {
    RemoveIdAppend(apartments, Apartment(newId, now, form), newId);
  }

  lemma {:induction false} RemoveIdAppend(apartments: seq<Apartment>, entry: Apartment, id: string)
    requires forall i :: 0 <= i < |apartments| ==> apartments[i].id != id
    requires entry.id == id
    ensures RemoveId(apartments + [entry], id) == apartments
  {
    if apartments == [] {
      assert RemoveId([entry], id) == [] + RemoveId([], id);
    } else {
      RemoveIdAppend(apartments[1..], entry, id);
      assert (apartments + [entry])[1..] == apartments[1..] + [entry];
      assert RemoveId(apartments + [entry], id)
          == [apartments[0]] + RemoveId(apartments[1..] + [entry], id);
      assert apartments == [apartments[0]] + apartments[1..];
    }
  }

  /** Deleting twice is deleting once; an unconfirmed delete changes nothing. */
  lemma {:induction false} DeleteIdempotent(apartments: seq<Apartment>, id: string, confirmed: bool)
    ensures Delete(Delete(apartments, id, confirmed), id, confirmed) == Delete(apartments, id, confirmed)
    ensures !confirmed ==> Delete(apartments, id, confirmed) == apartments
  {
    if confirmed {
      RemoveIdTwice(apartments, id);
    }
  }

  lemma {:induction false} RemoveIdTwice(apartments: seq<Apartment>, id: string)
    ensures RemoveId(RemoveId(apartments, id), id) == RemoveId(apartments, id)
  {
    if apartments != [] {
      RemoveIdTwice(apartments[1..], id);
      var rest := RemoveId(apartments[1..], id);
      if apartments[0].id != id {
        assert ([apartments[0]] + rest)[1..] == rest;
      } else {
        assert RemoveId(apartments, id) == rest;
      }
    }
  }
}
