/**
  The pricing rule of saveMaxPrice: find the operator's own offer in a collection's offers,
  cap the price below the floor (less the optional commission and one price step) and bid one
  step above the best competitor. Everything is in cents.
*/
module Pricing {
  import opened Wrappers
  import opened Numbers

  /** One element of the offers list of a collection. `amount` and `floorPrice` (the
      collection's floor, carried by every offer) are in cents; an empty `id` stands for an
      offer whose id is missing or falsy. */
  datatype Offer = Offer(id: string, senderId: int, amount: nat, floorPrice: nat)

  /** The price step, 0.01, in cents. */
  const PriceStep: nat := 1

  /** The marketplace commission, 5 %. */
  const CommissionPercent: nat := 5

  /** isMyOffer: the offer was placed by the operator's account. */
  predicate IsMyOffer(o: Offer, operatorId: int) {
    o.senderId == operatorId
  }

  /** The position of `offers.find(isMyOffer)`. */
  function MyOfferIndex(offers: seq<Offer>, operatorId: int): (k: Option<nat>)
    ensures k.Some? ==> k.value < |offers| && IsMyOffer(offers[k.value], operatorId)
    ensures k.Some? ==> forall j :: 0 <= j < k.value ==> !IsMyOffer(offers[j], operatorId)
    ensures k.None? <==> forall j :: 0 <= j < |offers| ==> !IsMyOffer(offers[j], operatorId)
  {
    if offers == [] then None
    else if IsMyOffer(offers[0], operatorId) then Some(0)
    else match MyOfferIndex(offers[1..], operatorId)
      case None => None
      case Some(i) => Some(i + 1)
  }

  /** The offers of everybody but the operator, in their original order. */
  function Competitors(offers: seq<Offer>, operatorId: int): (r: seq<Offer>)
    ensures |r| <= |offers|
  {
    if offers == [] then []
    else (if IsMyOffer(offers[0], operatorId) then [] else [offers[0]]) + Competitors(offers[1..], operatorId)
  }

  /** The competitors are exactly the offers not placed by the operator. */
  lemma {:induction false} CompetitorsAreTheOthers(offers: seq<Offer>, operatorId: int)
    ensures forall o :: o in Competitors(offers, operatorId) <==> o in offers && !IsMyOffer(o, operatorId)
  {
    if offers != [] {
      CompetitorsAreTheOthers(offers[1..], operatorId);
      assert offers == [offers[0]] + offers[1..];
    }
  }

  /** `Math.max(...amounts)`; None is the -Infinity of an empty argument list. */
  function MaxAmount(s: seq<Offer>): (m: Option<nat>)
    ensures m.None? <==> s == []
  {
    if s == [] then None
    else match MaxAmount(s[1..])
      case None => Some(s[0].amount)
      case Some(rest) => Some(if s[0].amount >= rest then s[0].amount else rest)
  }

  /** MaxAmount is the amount of one of the offers and no offer bids more. */
  lemma {:induction false} MaxAmountIsMaximum(s: seq<Offer>)
    requires s != []
    ensures exists o :: o in s && o.amount == MaxAmount(s).value
    ensures forall o :: o in s ==> o.amount <= MaxAmount(s).value
  {
    assert s[0] in s;
    if |s| > 1 {
      MaxAmountIsMaximum(s[1..]);
      assert s == [s[0]] + s[1..];
    }
  }

  /** availableMaxPrice: the floor, less 5 % of it when the commission is included, less one
      step, rounded to the cent. */
  function AvailableMaxPrice(floor: nat, includeCommission: bool): (c: int)
    ensures !includeCommission ==> c == floor - PriceStep
    ensures includeCommission ==> -100 <= 2 * (100 * (c + PriceStep) - (100 - CommissionPercent) * floor) <= 100
    ensures includeCommission && 2 * (100 * (c + PriceStep) - (100 - CommissionPercent) * floor) == 100 ==>
      (100 - CommissionPercent) * floor >= 100 * PriceStep
    ensures includeCommission && 2 * (100 * (c + PriceStep) - (100 - CommissionPercent) * floor) == -100 ==>
      (100 - CommissionPercent) * floor < 100 * PriceStep
    ensures c <= floor - PriceStep
  {
    var commission := if includeCommission then CommissionPercent else 0;
    RoundHalfAway(floor * (100 - commission) - 100 * PriceStep, 100)
  }

  /** A floor of 100.00: the ceiling is 99.99 without the commission and 94.99 with it. */
  lemma CeilingExamples()
    ensures AvailableMaxPrice(10000, false) == 9999
    ensures AvailableMaxPrice(10000, true) == 9499
  {
  }

  /** A price strictly above every competitor's amount. */
  predicate Outbids(price: int, rivals: seq<Offer>) {
    forall o :: o in rivals ==> o.amount < price
  }

  /** The price the rule aims for, characterised without computing it: -Infinity exactly when
      nobody else bids; otherwise a price within the ceiling that beats every competitor or is
      the ceiling itself, and no dearer than any price within the ceiling that beats them all. */
  ghost predicate CheapestWinningBid(t: Hundredths, rivals: seq<Offer>, ceiling: int) {
    && (t.NegInfinity? <==> rivals == [])
    && (t.Finite? ==> t.value <= ceiling)
    && (t.Finite? ==> Outbids(t.value, rivals) || t.value == ceiling)
    && (t.Finite? ==> forall p :: p <= ceiling && Outbids(p, rivals) ==> t.value <= p)
  }

  /** At most one price meets that description. */
  lemma CheapestWinningBidIsUnique(t1: Hundredths, t2: Hundredths, rivals: seq<Offer>, ceiling: int)
    requires CheapestWinningBid(t1, rivals, ceiling) && CheapestWinningBid(t2, rivals, ceiling)
    ensures t1 == t2
  {
  }

  /** needPrice: one step above the best competitor when that stays below the ceiling, the
      ceiling otherwise. The floor is read from the first offer of the list. Without any
      competitor, `Math.max()` is -Infinity, which is below the ceiling, and -Infinity + 0.01 is
      still -Infinity. */
  function Target(offers: seq<Offer>, operatorId: int, includeCommission: bool): (t: Hundredths)
    requires offers != []
    ensures t.NegInfinity? <==> Competitors(offers, operatorId) == []
    ensures t.Finite? ==> t.value <= AvailableMaxPrice(offers[0].floorPrice, includeCommission)
  {
    var ceiling := AvailableMaxPrice(offers[0].floorPrice, includeCommission);
    match MaxAmount(Competitors(offers, operatorId))
    case None => NegInfinity
    case Some(best) => Finite(if best < ceiling then best + PriceStep else ceiling)
  }

  /** The target is the cheapest price that beats every competitor without exceeding the
      ceiling, or the ceiling itself when no such price exists; it is -Infinity only when
      nobody else bids. */
  lemma TargetIsCheapestWinningBid(offers: seq<Offer>, operatorId: int, includeCommission: bool)
    requires offers != []
    ensures CheapestWinningBid(Target(offers, operatorId, includeCommission), Competitors(offers, operatorId),
                               AvailableMaxPrice(offers[0].floorPrice, includeCommission))
  {
    var rivals := Competitors(offers, operatorId);
    match MaxAmount(rivals)
    case None =>
    case Some(best) =>
      MaxAmountIsMaximum(rivals);
      var o :| o in rivals && o.amount == best;
      assert forall p :: Outbids(p, rivals) ==> best < p;
  }

  /** What one run of saveMaxPrice decides for a collection. */
  datatype Decision =
    | Untrack(prevOffer: Option<Offer>)   // no own offer with an id; prevOffer is an own offer without one
    | Keep                                // the own offer already stands at the target
    | Update(offerId: string, price: Hundredths)

  /** The operator holds an offer here and it has an id (`myOffer?.id` is truthy). */
  predicate HasIdentifiedOffer(offers: seq<Offer>, operatorId: int) {
    var k := MyOfferIndex(offers, operatorId);
    k.Some? && offers[k.value].id != ""
  }

  /** saveMaxPrice's rule: stop tracking without an own offer with an id (handing back an own
      offer that has no id for archiving), keep a price that already stands at the target, and
      move the own offer to the target otherwise. */
  function Decide(offers: seq<Offer>, operatorId: int, includeCommission: bool): (d: Decision)
    ensures d.Untrack? <==> !HasIdentifiedOffer(offers, operatorId)
    ensures d.Untrack? && d.prevOffer.Some? ==>
      MyOfferIndex(offers, operatorId).Some? && d.prevOffer.value == offers[MyOfferIndex(offers, operatorId).value]
    ensures d.Untrack? && d.prevOffer.None? ==> MyOfferIndex(offers, operatorId).None?
    ensures d.Update? ==>
      var mine := offers[MyOfferIndex(offers, operatorId).value];
      d.offerId == mine.id && d.price != Finite(mine.amount)
  {
    match MyOfferIndex(offers, operatorId)
    case None => Untrack(None)
    case Some(k) =>
      if offers[k].id == "" then Untrack(Some(offers[k]))
      else
        var need := Target(offers, operatorId, includeCommission);
        if Finite(offers[k].amount) == need then Keep else Update(offers[k].id, need)
  }

  /** With an own offer that has an id, the rule keeps the price exactly when the own offer
      already stands at the cheapest winning bid, and otherwise sends that bid for the own
      offer. */
  lemma DecisionMovesToCheapestWinningBid(offers: seq<Offer>, operatorId: int, includeCommission: bool)
    requires HasIdentifiedOffer(offers, operatorId)
    ensures var d := Decide(offers, operatorId, includeCommission);
      var mine := offers[MyOfferIndex(offers, operatorId).value];
      var rivals := Competitors(offers, operatorId);
      var ceiling := AvailableMaxPrice(offers[0].floorPrice, includeCommission);
      && (d.Keep? <==> CheapestWinningBid(Finite(mine.amount), rivals, ceiling))
      && (d.Update? ==> d.offerId == mine.id && d.offerId != "" && CheapestWinningBid(d.price, rivals, ceiling))
  {
    var mine := offers[MyOfferIndex(offers, operatorId).value];
    var rivals := Competitors(offers, operatorId);
    var ceiling := AvailableMaxPrice(offers[0].floorPrice, includeCommission);
    TargetIsCheapestWinningBid(offers, operatorId, includeCommission);
    if CheapestWinningBid(Finite(mine.amount), rivals, ceiling) {
      CheapestWinningBidIsUnique(Finite(mine.amount), Target(offers, operatorId, includeCommission), rivals, ceiling);
    }
  }

  /** The offers after the own offer at position k was moved to `price`. */
  function Repriced(offers: seq<Offer>, k: nat, price: nat): (r: seq<Offer>)
    requires k < |offers|
    ensures |r| == |offers| && r[k].amount == price
  {
    offers[k := offers[k].(amount := price)]
  }

  /** Replacing one of the operator's own offers by another own offer leaves the competitors
      as they were. */
  lemma {:induction false} CompetitorsIgnoreOwnOffer(offers: seq<Offer>, operatorId: int, k: nat, mine: Offer)
    requires k < |offers| && IsMyOffer(offers[k], operatorId) && IsMyOffer(mine, operatorId)
    ensures Competitors(offers[k := mine], operatorId) == Competitors(offers, operatorId)
  {
    var changed := offers[k := mine];
    if k == 0 {
      assert changed[1..] == offers[1..];
    } else {
      assert changed[1..] == offers[1..][k - 1 := mine];
      CompetitorsIgnoreOwnOffer(offers[1..], operatorId, k - 1, mine);
    }
  }

  /** The amount of the own offer never influences the target price. */
  lemma OwnAmountDoesNotMoveTarget(offers: seq<Offer>, operatorId: int, includeCommission: bool, k: nat, amount: nat)
    requires k < |offers| && IsMyOffer(offers[k], operatorId)
    ensures Target(Repriced(offers, k, amount), operatorId, includeCommission) == Target(offers, operatorId, includeCommission)
  {
    CompetitorsIgnoreOwnOffer(offers, operatorId, k, offers[k].(amount := amount));
    assert Repriced(offers, k, amount)[0].floorPrice == offers[0].floorPrice;
  }

  /** Repricing the own offer leaves MyOfferIndex where it was. */
  lemma RepricedKeepsMyOffer(offers: seq<Offer>, operatorId: int, k: nat, price: nat)
    requires MyOfferIndex(offers, operatorId) == Some(k)
    ensures MyOfferIndex(Repriced(offers, k, price), operatorId) == Some(k)
  {
    var r := Repriced(offers, k, price);
    assert forall j :: 0 <= j < |r| ==> r[j].senderId == offers[j].senderId;
  }

  /** Once the update it asks for is applied, the rule asks for nothing more on the same
      offers: saveMaxPrice is idempotent once the price matches. */
  lemma UpdateThenKeep(offers: seq<Offer>, operatorId: int, includeCommission: bool)
    requires Decide(offers, operatorId, includeCommission).Update?
    requires Decide(offers, operatorId, includeCommission).price.Finite?
    requires Decide(offers, operatorId, includeCommission).price.value >= 0
    ensures
      var k := MyOfferIndex(offers, operatorId).value;
      var price := Decide(offers, operatorId, includeCommission).price.value;
      Decide(Repriced(offers, k, price), operatorId, includeCommission) == Keep
  {
    var k := MyOfferIndex(offers, operatorId).value;
    var price := Decide(offers, operatorId, includeCommission).price.value;
    RepricedKeepsMyOffer(offers, operatorId, k, price);
    OwnAmountDoesNotMoveTarget(offers, operatorId, includeCommission, k, price);
  }
}
