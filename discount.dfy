/**
  searchDiscount: one pass over the marketplace's collections looking for a collection whose
  best competing offer sits far below its floor. The percent gap and the "comfort price" are
  kept in basis points (hundredths of a percent) and cents, so the two `toFixed(2)` roundings
  are exact.
*/
module Discount {
  import opened Wrappers
  import opened Numbers
  import opened Pricing
  import opened Transport
  import opened Tracking

  /** One element of the collections list: its id and its display name. */
  datatype Collection = Collection(id: string, name: string)

  /** What made the pass reject. */
  datatype ScanError =
    | MissingParameters                    // needDiffPercent or maxPrice is falsy
    | Remote(error: TransportError)        // a marketplace call threw
    | NoCompetitorOffer(collectionId: string)  // `offers[0]` of an empty competitor list is undefined

  /** A collection the pass reports: logged together with its figures and notified by name
      and gap. */
  datatype Finding = Finding(collectionId: string, name: string, maxOfferPrice: nat, floorPrice: nat,
                             diffPercent: int, comfortPrice: int)

  /** How the pass treats one collection. */
  datatype Step =
    | Skip                      // does not qualify
    | Report(finding: Finding)  // qualifies, is not tracked, and was reported
    | Stop                      // qualifies but is already tracked: the whole pass returns
    | Abort(error: ScanError)   // the pass rejects here

  /** `!x` for a parameter that is a number or missing. */
  predicate Falsy(x: Option<int>) {
    x.None? || x.value == 0
  }

  /** diffPercent: how far, in basis points, one step above the best competing offer lies below
      the floor, rounded to two decimals of a percent. A zero floor divides to Infinity, and
      100 - Infinity is -Infinity. */
  function DiffPercent(maxOfferPrice: nat, floor: nat): (d: Hundredths)
    ensures d.NegInfinity? <==> floor == 0
    ensures d.Finite? ==>
      -(floor as int) <= 2 * (d.value * floor - 10000 * (floor - (maxOfferPrice + PriceStep))) <= floor
  {
    if floor == 0 then NegInfinity
    else Finite(RoundHalfAway(10000 * (floor - (maxOfferPrice + PriceStep)), floor))
  }

  /** maxComfortPrice: the floor less needDiffPercent of it, in cents, rounded to the cent. */
  function ComfortPrice(floor: nat, needDiffPercent: int): (c: int)
    ensures -10000 <= 2 * (10000 * c - floor * (10000 - needDiffPercent)) <= 10000
    ensures needDiffPercent >= 0 ==> c <= floor
  {
    RoundHalfAway(floor * (10000 - needDiffPercent), 10000)
  }

  /** The test of the pass: the gap exceeds the threshold and the floor is affordable. */
  predicate Qualifies(diff: Hundredths, needDiffPercent: int, floor: nat, maxPrice: int) {
    diff.Finite? && diff.value > needDiffPercent && floor <= maxPrice
  }

  /** The rounded gap beats the threshold exactly when the exact gap
      10000 * (floor - maxOfferPrice - 0.01) / floor is more than half a basis point above it,
      or exactly half a basis point above a non-negative threshold (where the tie rounds up). */
  lemma QualifiesIffExactGap(maxOfferPrice: nat, floor: nat, needDiffPercent: int, maxPrice: int)
    requires floor > 0
    ensures var exact2 := 2 * 10000 * (floor - (maxOfferPrice + PriceStep));
      var bar := (2 * needDiffPercent + 1) * floor;
      Qualifies(DiffPercent(maxOfferPrice, floor), needDiffPercent, floor, maxPrice) <==>
        floor <= maxPrice && (exact2 > bar || (exact2 == bar && needDiffPercent >= 0))
  {
    RoundedAbove(10000 * (floor - (maxOfferPrice + PriceStep)), floor, needDiffPercent);
  }

  /** A floor of 50.00 under a best offer of 40.00 is a gap of 19.98 %, which beats a 10 %
      threshold; its comfort price is 45.00. */
  lemma GapExample()
    ensures DiffPercent(4000, 5000) == Finite(1998)
    ensures Qualifies(DiffPercent(4000, 5000), 1000, 5000, 5000)
    ensures ComfortPrice(5000, 1000) == 4500
  {
  }

  /** The position of `collections.find(({ id }) => id === collectionId)`. */
  function CollectionIndex(collections: seq<Collection>, id: string): (k: Option<nat>)
    ensures k.Some? ==> k.value < |collections| && collections[k.value].id == id
    ensures k.Some? ==> forall j :: 0 <= j < k.value ==> collections[j].id != id
    ensures k.None? <==> forall j :: 0 <= j < |collections| ==> collections[j].id != id
  {
    if collections == [] then None
    else if collections[0].id == id then Some(0)
    else match CollectionIndex(collections[1..], id)
      case None => None
      case Some(i) => Some(i + 1)
  }

  /** Everything the pass sees once its parameters have been checked and the collections
      fetched. offers[j] is what portalsCheckOfferGetAll answers for the j-th collection,
      rechecks[j] how the getMyOffer call made for it ends and notices[j] how the notification
      sent for it ends; intervals is the tracking list. */
  datatype Scan = Scan(needDiffPercent: int, maxPrice: int, operatorId: int, intervals: seq<Entry>,
                       collections: seq<Collection>,
                       offers: seq<Result<seq<Offer>, TransportError>>, rechecks: seq<Outcome>,
                       notices: seq<Outcome>)

  predicate Complete(s: Scan) {
    |s.offers| >= |s.collections| && |s.rechecks| >= |s.collections| && |s.notices| >= |s.collections|
  }

  /** The loop body of searchDiscount for the j-th collection. The floor is read from the first
      competing offer, so a collection without competitors makes the pass reject, as does a
      failed getMyOffer or notification for a reported collection. */
  function StepAt(s: Scan, j: nat): (r: Step)
    requires Complete(s) && j < |s.collections|
    ensures s.offers[j].Failure? ==> r == Abort(Remote(s.offers[j].error))
    ensures !r.Abort? ==> s.offers[j].Success? && Competitors(s.offers[j].value, s.operatorId) != []
    ensures r.Stop? ==> Tracked(s.intervals, s.collections[j].id)
    ensures r.Report? ==>
      && r.finding.collectionId == s.collections[j].id
      && Qualifies(Finite(r.finding.diffPercent), s.needDiffPercent, r.finding.floorPrice, s.maxPrice)
      && !Tracked(s.intervals, s.collections[j].id)
      && s.rechecks[j].Done? && s.notices[j].Done?
  {
    var id := s.collections[j].id;
    match s.offers[j]
    case Failure(e) => Abort(Remote(e))
    case Success(offers) =>
      var rivals := Competitors(offers, s.operatorId);
      match MaxAmount(rivals)
      case None => Abort(NoCompetitorOffer(id))
      case Some(best) =>
        var floor := rivals[0].floorPrice;
        var diff := DiffPercent(best, floor);
        if !Qualifies(diff, s.needDiffPercent, floor, s.maxPrice) then Skip
        else if Tracked(s.intervals, id) then Stop
        else match s.rechecks[j]
          case Failed(e) => Abort(Remote(e))
          case Done =>
            match s.notices[j]
            case Failed(e) => Abort(Remote(e))
            case Done =>
              var name := s.collections[CollectionIndex(s.collections, id).value].name;
              Report(Finding(id, name, best, floor, diff.value, ComfortPrice(floor, s.needDiffPercent)))
  }

  /** The findings of the first k collections, in order. */
  function FindingsUpTo(s: Scan, k: nat): seq<Finding>
    requires Complete(s) && k <= |s.collections|
  {
    if k == 0 then []
    else
      var step := StepAt(s, k - 1);
      FindingsUpTo(s, k - 1) + (if step.Report? then [step.finding] else [])
  }

  /** The loop of searchDiscount over the fetched collections. `visited` counts the
      collections it went through without stopping; when it stops early, the collection at
      `visited` is the one that made it stop. */
  method Pass(s: Scan) returns (r: Result<seq<Finding>, ScanError>, visited: nat)
    requires Complete(s)
    ensures visited <= |s.collections|
    ensures forall j :: 0 <= j < visited ==> StepAt(s, j).Skip? || StepAt(s, j).Report?
    ensures visited < |s.collections| ==> StepAt(s, visited).Stop? || StepAt(s, visited).Abort?
    ensures r.Success? <==> visited == |s.collections| || StepAt(s, visited).Stop?
    ensures r.Success? ==> r.value == FindingsUpTo(s, visited)
    ensures r.Failure? ==> StepAt(s, visited) == Abort(r.error)
  {
    var found: seq<Finding> := [];
    visited := 0;
    while visited < |s.collections|
      invariant visited <= |s.collections|
      invariant forall j :: 0 <= j < visited ==> StepAt(s, j).Skip? || StepAt(s, j).Report?
      invariant found == FindingsUpTo(s, visited)
    {
      var step := StepAt(s, visited);
      match step {
        case Skip =>
        case Report(f) =>
          found := found + [f];
        case Stop =>
          return Success(found), visited;
        case Abort(e) =>
          return Failure(e), visited;
      }
      assert step.Skip? || step.Report?;
      visited := visited + 1;
    }
    return Success(found), visited;
  }

  /** searchDiscount: the parameters are checked before anything is fetched, then the
      collections are fetched and gone through by Pass. */
  method SearchDiscount(needDiffPercent: Option<int>, maxPrice: Option<int>, operatorId: int,
                        intervals: seq<Entry>, collections: Result<seq<Collection>, TransportError>,
                        offers: seq<Result<seq<Offer>, TransportError>>, rechecks: seq<Outcome>,
                        notices: seq<Outcome>)
    returns (r: Result<seq<Finding>, ScanError>, visited: nat)
    requires collections.Success? ==>
      |offers| >= |collections.value| && |rechecks| >= |collections.value| && |notices| >= |collections.value|
    ensures r == Failure(MissingParameters) <==> Falsy(needDiffPercent) || Falsy(maxPrice)
    ensures Falsy(needDiffPercent) || Falsy(maxPrice) ==> visited == 0
    ensures !Falsy(needDiffPercent) && !Falsy(maxPrice) && collections.Failure? ==>
      r == Failure(Remote(collections.error)) && visited == 0
    ensures !Falsy(needDiffPercent) && !Falsy(maxPrice) && collections.Success? ==>
      var s := Scan(needDiffPercent.value, maxPrice.value, operatorId, intervals, collections.value, offers, rechecks, notices);
      && visited <= |s.collections|
      && (r.Success? <==> visited == |s.collections| || StepAt(s, visited).Stop?)
      && (r.Success? ==> r.value == FindingsUpTo(s, visited))
      && (r.Failure? ==> StepAt(s, visited) == Abort(r.error))
  {
    if Falsy(needDiffPercent) || Falsy(maxPrice) {
      return Failure(MissingParameters), 0;
    }
    if collections.Failure? {
      return Failure(Remote(collections.error)), 0;
    }
    var s := Scan(needDiffPercent.value, maxPrice.value, operatorId, intervals, collections.value, offers, rechecks, notices);
    r, visited := Pass(s);
  }

  /** Every reported collection passed the test, was not being tracked, and is reported under
      the name of the first collection listed with its id. */
  lemma {:induction false} FindingsQualify(s: Scan, k: nat)
    requires Complete(s) && k <= |s.collections|
    ensures forall f :: f in FindingsUpTo(s, k) ==>
      && Qualifies(Finite(f.diffPercent), s.needDiffPercent, f.floorPrice, s.maxPrice)
      && !Tracked(s.intervals, f.collectionId)
      && (exists j :: 0 <= j < k && s.collections[j].id == f.collectionId)
      && CollectionIndex(s.collections, f.collectionId).Some?
      && f.name == s.collections[CollectionIndex(s.collections, f.collectionId).value].name
  {
    if k > 0 {
      FindingsQualify(s, k - 1);
      var step := StepAt(s, k - 1);
      if step.Report? {
        assert s.collections[k - 1].id == step.finding.collectionId;
      }
    }
  }

  /** When every listed collection is already tracked, as after a completed
      startCorrectMaxOfferPrice, the pass reports nothing: it skips collections until the first
      qualifying one and stops there. */
  lemma {:induction false} AllTrackedReportsNothing(s: Scan, k: nat)
    requires Complete(s) && k <= |s.collections|
    requires forall j :: 0 <= j < |s.collections| ==> Tracked(s.intervals, s.collections[j].id)
    ensures FindingsUpTo(s, k) == []
    ensures forall j :: 0 <= j < k ==> !StepAt(s, j).Report?
  {
    if k > 0 {
      AllTrackedReportsNothing(s, k - 1);
      assert Tracked(s.intervals, s.collections[k - 1].id);
    }
  }
}
