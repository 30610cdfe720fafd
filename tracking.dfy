/**
  The tracking side of index.js: the process-wide list of per-collection intervals
  (controlMaxOfferPriceCollectionsIntervals), saveMaxPrice acting on one collection, the timer
  that re-runs it, and startCorrectMaxOfferPrice, which runs it once per collection and starts
  one interval per collection id. Timers are opaque handles; what the code does to the world
  (clearing or setting an interval, archiving an offer, a ping, a price update) is recorded in
  order as effects.
*/
module Tracking {
  import opened Wrappers
  import opened Numbers
  import opened Pricing
  import opened Transport

  /** INTERVAL_TIME: the period, in milliseconds, of each collection's interval. */
  const IntervalTime: nat := 10000

  /** The value setInterval returns. */
  type TimerHandle = nat

  /** One element of controlMaxOfferPriceCollectionsIntervals. */
  datatype Entry = Entry(collectionId: string, interval: TimerHandle)

  /** What the controller does to the world. */
  datatype Effect =
    | IntervalSet(collectionId: string, handle: TimerHandle)
    | IntervalCleared(handle: TimerHandle)
    | OfferArchived(offer: Offer)        // the last_offer_<time>.json file
    | ArchiveNotified                    // the prev_offer_saved notification
    | PriceSubmitted(offerId: string, price: Hundredths)  // an update attempted: its request may fail or, when
                                                          // the token fetch fails, never be sent

  /** The position of `intervals.find(interval => interval.collectionId === id)`. */
  function EntryIndex(entries: seq<Entry>, id: string): (k: Option<nat>)
    ensures k.Some? ==> k.value < |entries| && entries[k.value].collectionId == id
    ensures k.None? <==> forall j :: 0 <= j < |entries| ==> entries[j].collectionId != id
  {
    if entries == [] then None
    else if entries[0].collectionId == id then Some(0)
    else match EntryIndex(entries[1..], id)
      case None => None
      case Some(i) => Some(i + 1)
  }

  /** The list holds an entry for collection `id`. */
  predicate Tracked(entries: seq<Entry>, id: string) {
    exists n :: 0 <= n < |entries| && entries[n].collectionId == id
  }

  /** An entry stays in the list as the list grows. */
  lemma TrackedGrows(a: seq<Entry>, b: seq<Entry>)
    requires a <= b
    ensures forall id :: Tracked(a, id) ==> Tracked(b, id)
  {
    forall id | Tracked(a, id) ensures Tracked(b, id) {
      var n :| 0 <= n < |a| && a[n].collectionId == id;
      assert b[n] == a[n];
    }
  }

  /** No two entries for one collection. */
  predicate UniqueIds(entries: seq<Entry>) {
    forall i, j :: 0 <= i < j < |entries| ==> entries[i].collectionId != entries[j].collectionId
  }

  /** The interval saveMaxPrice clears on the decision `d` for collection `id`. */
  function ClearedTimers(entries: seq<Entry>, id: string, d: Decision): set<TimerHandle> {
    match EntryIndex(entries, id)
    case Some(k) => if d.Untrack? then {entries[k].interval} else {}
    case None => {}
  }

  /** The effects of saveMaxPrice once the offers are in, in the order the code performs them. */
  function SaveEffects(entries: seq<Entry>, id: string, d: Decision): (r: seq<Effect>)
    ensures forall e :: e in r ==> !e.IntervalSet?
    ensures forall e :: e in r && e.IntervalCleared? ==> d.Untrack? && Entry(id, e.handle) in entries
    ensures forall e :: e in r && e.PriceSubmitted? ==> d.Update?
  {
    match d
    case Untrack(prev) =>
      (match EntryIndex(entries, id)
       case Some(k) => [IntervalCleared(entries[k].interval)]
       case None => []) +
      (match prev
       case Some(o) => [OfferArchived(o), ArchiveNotified]
       case None => [])
    case Keep => []
    case Update(offerId, price) => [PriceSubmitted(offerId, price)]
  }

  /** How saveMaxPrice ends: it rejects when the offers cannot be fetched or when the update it
      sends fails, and resolves otherwise. */
  function SaveOutcome<J>(snapshot: Result<seq<Offer>, TransportError>, operatorId: int,
                          includeCommission: bool, reply: UpdateReply<J>): (o: Outcome)
    ensures snapshot.Failure? ==> o == Failed(snapshot.error)
    ensures snapshot.Success? && o.Failed? ==>
      Decide(snapshot.value, operatorId, includeCommission).Update? && (reply.NoResponse? || !reply.ok)
    ensures snapshot.Success? && !HasIdentifiedOffer(snapshot.value, operatorId) ==> o == Done
  {
    match snapshot
    case Failure(e) => Failed(e)
    case Success(offers) =>
      if Decide(offers, operatorId, includeCommission).Update? then
        match ClassifyUpdateReply(reply)
        case Failure(e) => Failed(e)
        case Success(_) => Done
      else Done
  }

  /** The number of price updates among some effects. */
  function Submissions(effects: seq<Effect>): (n: nat)
    ensures n <= |effects|
  {
    if effects == [] then 0
    else (if effects[0].PriceSubmitted? then 1 else 0) + Submissions(effects[1..])
  }

  /** saveMaxPrice submits exactly one update when the operator's identified offer is not at the
      target price, and none otherwise; a second run on the same offers after the update then
      submits nothing. */
  lemma {:induction false} SubmitsOnceIffPriceDiffers(entries: seq<Entry>, id: string, offers: seq<Offer>,
                                                      operatorId: int, includeCommission: bool)
    ensures var d := Decide(offers, operatorId, includeCommission);
      Submissions(SaveEffects(entries, id, d)) ==
        if HasIdentifiedOffer(offers, operatorId) &&
           Target(offers, operatorId, includeCommission) != Finite(offers[MyOfferIndex(offers, operatorId).value].amount)
        then 1 else 0
  {
    var d := Decide(offers, operatorId, includeCommission);
    var effs := SaveEffects(entries, id, d);
    if d.Untrack? {
      assert forall j :: 0 <= j < |effs| ==> !effs[j].PriceSubmitted?;
      NoSubmissions(effs);
    } else if d.Update? {
      assert Submissions(effs[1..]) == 0;
    }
  }

  lemma {:induction false} NoSubmissions(effects: seq<Effect>)
    requires forall j :: 0 <= j < |effects| ==> !effects[j].PriceSubmitted?
    ensures Submissions(effects) == 0
  {
    if effects != [] {
      NoSubmissions(effects[1..]);
    }
  }

  /** What the controller holds at one moment: the list, the intervals that are set and not
      cleared (each with the collection its callback runs saveMaxPrice for), the handle the next
      setInterval returns, and everything done to the world so far, oldest first. */
  datatype State = State(entries: seq<Entry>, timers: map<TimerHandle, string>, nextHandle: TimerHandle,
                         effects: seq<Effect>)

  /** The invariant the controller keeps: one entry per collection, handles below the next one,
      and every live interval is the one of its collection's entry. */
  predicate Consistent(st: State) {
    && UniqueIds(st.entries)
    && (forall i :: 0 <= i < |st.entries| ==> st.entries[i].interval < st.nextHandle)
    && (forall h :: h in st.timers ==> h < st.nextHandle)
    && (forall h :: h in st.timers ==> Entry(st.timers[h], h) in st.entries)
  }

  /** The state after saveMaxPrice for collection `id`: unchanged when the offers cannot be
      fetched; otherwise the interval it clears leaves the live ones and its effects are
      logged. The list itself never changes. */
  function SaveStep(st: State, id: string, snapshot: Result<seq<Offer>, TransportError>, operatorId: int,
                    includeCommission: bool): (r: State)
    ensures r.entries == st.entries && r.nextHandle == st.nextHandle && st.effects <= r.effects
    ensures forall h :: h in r.timers ==> h in st.timers && r.timers[h] == st.timers[h]
    ensures Consistent(st) ==> Consistent(r)
  {
    match snapshot
    case Failure(_) => st
    case Success(offers) =>
      var d := Decide(offers, operatorId, includeCommission);
      st.(timers := st.timers - ClearedTimers(st.entries, id, d),
          effects := st.effects + SaveEffects(st.entries, id, d))
  }

  /** An interval firing for its collection clears itself exactly when saveMaxPrice finds no
      own offer with an id there; a failed fetch leaves it running. */
  lemma FiringClearsItselfIffUntracked(st: State, h: TimerHandle, snapshot: Result<seq<Offer>, TransportError>,
                                       operatorId: int)
    requires Consistent(st) && h in st.timers
    ensures h !in SaveStep(st, st.timers[h], snapshot, operatorId, false).timers <==>
      snapshot.Success? && Decide(snapshot.value, operatorId, false).Untrack?
  {
    var id := st.timers[h];
    assert Entry(id, h) in st.entries;
    var n :| 0 <= n < |st.entries| && st.entries[n] == Entry(id, h);
    var k := EntryIndex(st.entries, id);
    assert k.Some?;
    assert k.value == n;
  }

  /** The state after the setInterval branch: a new live interval for `id`, pushed onto the
      list. */
  function Push(st: State, id: string): (r: State)
    ensures r.entries == st.entries + [Entry(id, st.nextHandle)] && r.nextHandle == st.nextHandle + 1
    ensures Tracked(r.entries, id)
    ensures Consistent(st) && !Tracked(st.entries, id) ==> Consistent(r)
  {
    var r := State(st.entries + [Entry(id, st.nextHandle)], st.timers[st.nextHandle := id], st.nextHandle + 1,
                   st.effects + [IntervalSet(id, st.nextHandle)]);
    assert r.entries[|st.entries|] == Entry(id, st.nextHandle);
    assert forall i :: 0 <= i < |st.entries| ==> r.entries[i] == st.entries[i];
    r
  }

  /** One turn of the startCorrectMaxOfferPrice loop: saveMaxPrice without commission, then,
      when it resolved, an interval for `id` unless the list already has an entry for it. */
  function CorrectStep<J>(st: State, id: string, snapshot: Result<seq<Offer>, TransportError>,
                          reply: UpdateReply<J>, operatorId: int): (r: State)
    ensures Consistent(st) ==> Consistent(r)
    ensures || (r.entries == st.entries && r.nextHandle == st.nextHandle)
            || (r.entries == st.entries + [Entry(id, st.nextHandle)] && r.nextHandle == st.nextHandle + 1)
    ensures Tracked(st.entries, id) || SaveOutcome(snapshot, operatorId, false, reply).Failed? ==>
      r.entries == st.entries
    ensures SaveOutcome(snapshot, operatorId, false, reply).Done? ==> Tracked(r.entries, id)
    ensures forall h :: h in r.timers ==> h in st.timers || h == st.nextHandle
    ensures st.effects <= r.effects
  {
    var saved := SaveStep(st, id, snapshot, operatorId, false);
    if SaveOutcome(snapshot, operatorId, false, reply).Done? && EntryIndex(saved.entries, id).None?
    then Push(saved, id)
    else saved
  }

  /** startCorrectMaxOfferPrice on the fetched ids: CorrectStep for each in turn, stopping at the
      first rejected saveMaxPrice, whose rejection ends the run. */
  function Run<J>(st: State, ids: seq<string>, snapshots: seq<Result<seq<Offer>, TransportError>>,
                  replies: seq<UpdateReply<J>>, operatorId: int): (r: (State, Outcome))
    requires |snapshots| >= |ids| && |replies| >= |ids|
    ensures Consistent(st) ==> Consistent(r.0)
    decreases |ids|
  {
    if ids == [] then (st, Done)
    else
      var next := CorrectStep(st, ids[0], snapshots[0], replies[0], operatorId);
      var o := SaveOutcome(snapshots[0], operatorId, false, replies[0]);
      if o.Failed? then (next, o)
      else Run(next, ids[1..], snapshots[1..], replies[1..], operatorId)
  }

  /** A run only adds: entries (each for a listed id, with a new interval) and effects are
      appended, and no interval that was cleared before the run is live after it. */
  lemma {:induction false} RunOnlyAdds<J>(st: State, ids: seq<string>, snapshots: seq<Result<seq<Offer>, TransportError>>,
                                          replies: seq<UpdateReply<J>>, operatorId: int)
    requires |snapshots| >= |ids| && |replies| >= |ids|
    ensures var r := Run(st, ids, snapshots, replies, operatorId).0;
      && st.entries <= r.entries && st.effects <= r.effects && st.nextHandle <= r.nextHandle
      && (forall h :: h in r.timers ==> h in st.timers || h >= st.nextHandle)
    ensures var r := Run(st, ids, snapshots, replies, operatorId).0;
      forall n :: |st.entries| <= n < |r.entries| ==>
        r.entries[n].interval >= st.nextHandle && r.entries[n].collectionId in ids
    decreases |ids|
  {
    if ids != [] {
      var next := CorrectStep(st, ids[0], snapshots[0], replies[0], operatorId);
      if SaveOutcome(snapshots[0], operatorId, false, replies[0]).Done? {
        RunOnlyAdds(next, ids[1..], snapshots[1..], replies[1..], operatorId);
        var r := Run(st, ids, snapshots, replies, operatorId).0;
        assert r == Run(next, ids[1..], snapshots[1..], replies[1..], operatorId).0;
        forall n | |st.entries| <= n < |r.entries|
          ensures r.entries[n].interval >= st.nextHandle && r.entries[n].collectionId in ids
        {
          if n >= |next.entries| {
            assert r.entries[n].collectionId in ids[1..];
          } else {
            assert next.entries == st.entries + [Entry(ids[0], st.nextHandle)];
            assert r.entries[n] == next.entries[n];
          }
        }
      }
    }
  }

  /** A completed run ran every saveMaxPrice without a rejection and tracks every listed id. */
  lemma {:induction false} RunCompletedTracksAll<J>(st: State, ids: seq<string>,
                                                    snapshots: seq<Result<seq<Offer>, TransportError>>,
                                                    replies: seq<UpdateReply<J>>, operatorId: int)
    requires |snapshots| >= |ids| && |replies| >= |ids|
    requires Run(st, ids, snapshots, replies, operatorId).1.Done?
    ensures forall j :: 0 <= j < |ids| ==> SaveOutcome(snapshots[j], operatorId, false, replies[j]).Done?
    ensures forall j :: 0 <= j < |ids| ==> Tracked(Run(st, ids, snapshots, replies, operatorId).0.entries, ids[j])
    decreases |ids|
  {
    if ids != [] {
      var next := CorrectStep(st, ids[0], snapshots[0], replies[0], operatorId);
      var r := Run(st, ids, snapshots, replies, operatorId).0;
      RunCompletedTracksAll(next, ids[1..], snapshots[1..], replies[1..], operatorId);
      RunOnlyAdds(next, ids[1..], snapshots[1..], replies[1..], operatorId);
      TrackedGrows(next.entries, r.entries);
      forall j | 1 <= j < |ids|
        ensures SaveOutcome(snapshots[j], operatorId, false, replies[j]).Done? && Tracked(r.entries, ids[j])
      {
        assert ids[j] == ids[1..][j - 1] && snapshots[j] == snapshots[1..][j - 1] && replies[j] == replies[1..][j - 1];
      }
    }
  }

  /** A rejected run rejected at some listed collection k with that collection's saveMaxPrice
      outcome, after running the earlier ones without a rejection and tracking their ids. */
  lemma {:induction false} RunRejectedAtFirstFailure<J>(st: State, ids: seq<string>,
                                                        snapshots: seq<Result<seq<Offer>, TransportError>>,
                                                        replies: seq<UpdateReply<J>>, operatorId: int)
    requires |snapshots| >= |ids| && |replies| >= |ids|
    requires Run(st, ids, snapshots, replies, operatorId).1.Failed?
    ensures var (r, o) := Run(st, ids, snapshots, replies, operatorId);
      exists k :: 0 <= k < |ids| && o == SaveOutcome(snapshots[k], operatorId, false, replies[k]) &&
        forall j :: 0 <= j < k ==> SaveOutcome(snapshots[j], operatorId, false, replies[j]).Done? && Tracked(r.entries, ids[j])
    decreases |ids|
  {
    var next := CorrectStep(st, ids[0], snapshots[0], replies[0], operatorId);
    var (r, o) := Run(st, ids, snapshots, replies, operatorId);
    if SaveOutcome(snapshots[0], operatorId, false, replies[0]).Failed? {
      assert o == SaveOutcome(snapshots[0], operatorId, false, replies[0]);
    } else {
      RunRejectedAtFirstFailure(next, ids[1..], snapshots[1..], replies[1..], operatorId);
      RunOnlyAdds(next, ids[1..], snapshots[1..], replies[1..], operatorId);
      TrackedGrows(next.entries, r.entries);
      var k' :| 0 <= k' < |ids| - 1 && o == SaveOutcome(snapshots[1..][k'], operatorId, false, replies[1..][k']) &&
        forall j :: 0 <= j < k' ==> SaveOutcome(snapshots[1..][j], operatorId, false, replies[1..][j]).Done? && Tracked(r.entries, ids[1..][j]);
      forall j | 1 <= j < k' + 1
        ensures SaveOutcome(snapshots[j], operatorId, false, replies[j]).Done? && Tracked(r.entries, ids[j])
      {
        assert ids[j] == ids[1..][j - 1] && snapshots[j] == snapshots[1..][j - 1] && replies[j] == replies[1..][j - 1];
      }
      assert snapshots[k' + 1] == snapshots[1..][k'] && replies[k' + 1] == replies[1..][k'];
    }
  }

  /** A new collection without an own offer gets an interval all the same. */
  lemma BareCollectionExample()
    ensures var silent: UpdateReply<int> := NoResponse;
      CorrectStep(State([], map[], 0, []), "A", Success([Offer("o1", 7, 150, 200)]), silent, 1) ==
        State([Entry("A", 0)], map[0 := "A"], 1, [IntervalSet("A", 0)])
  {
    var bare := [Offer("o1", 7, 150, 200)];
    assert MyOfferIndex(bare, 1) == None by {
      assert MyOfferIndex(bare[1..], 1) == None;
    }
    assert Decide(bare, 1, false) == Untrack(None);
    var empty := State([], map[], 0, []);
    assert ClearedTimers([], "A", Untrack(None)) == {} && SaveEffects([], "A", Untrack(None)) == [];
    assert empty.timers - {} == empty.timers && empty.effects + [] == empty.effects;
    assert SaveStep(empty, "A", Success(bare), 1, false) == empty;
  }

  /** That interval clears itself on its first firing. */
  lemma BareCollectionClearsItself()
    ensures var st := State([Entry("A", 0)], map[0 := "A"], 1, [IntervalSet("A", 0)]);
      SaveStep(st, "A", Success([Offer("o1", 7, 150, 200)]), 1, false) ==
        st.(timers := map[], effects := [IntervalSet("A", 0), IntervalCleared(0)])
  {
    var bare := [Offer("o1", 7, 150, 200)];
    assert MyOfferIndex(bare, 1) == None by {
      assert MyOfferIndex(bare[1..], 1) == None;
    }
    assert Decide(bare, 1, false) == Untrack(None);
    var entries := [Entry("A", 0)];
    assert EntryIndex(entries, "A") == Some(0);
    assert ClearedTimers(entries, "A", Untrack(None)) == {0};
    assert SaveEffects(entries, "A", Untrack(None)) == [IntervalCleared(0)];
    assert map[0 := "A"] - {0} == map[];
  }

  /** A collection whose own offer stands at 1.00 against a best competitor of 1.50 and a floor
      of 2.00 is moved to 1.51 before its interval is set. */
  lemma HeldCollectionExample()
    ensures var held := [Offer("mine", 1, 100, 200), Offer("o1", 7, 150, 200)];
      var accepted: UpdateReply<int> := Response(true, 200, "", None);
      var (st, o) := Run(State([], map[], 0, []), ["B"], [Success(held)], [accepted], 1);
      && o == Done
      && st.effects == [PriceSubmitted("mine", Finite(151)), IntervalSet("B", 0)]
  {
    var held := [Offer("mine", 1, 100, 200), Offer("o1", 7, 150, 200)];
    assert MyOfferIndex(held, 1) == Some(0);
    assert Competitors(held, 1) == [held[1]] by {
      assert held[1..] == [held[1]] && held[1..][1..] == [];
    }
    assert MaxAmount([held[1]]) == Some(150);
    assert AvailableMaxPrice(200, false) == 199;
    assert Target(held, 1, false) == Finite(151);
    assert Decide(held, 1, false) == Update("mine", Finite(151));
  }

  class Tracker {
    /** The operator's account id (`+user_id`). */
    const operatorId: int
    /** controlMaxOfferPriceCollectionsIntervals. */
    var entries: seq<Entry>
    /** The runtime's table of intervals that were set and not cleared since, each with the
        collection its callback runs saveMaxPrice for. */
    var timers: map<TimerHandle, string>
    /** The handle the next setInterval returns. */
    var nextHandle: TimerHandle
    /** Everything done to the world so far, oldest first. */
    var effects: seq<Effect>

    function Current(): State
      reads this
    {
      State(entries, timers, nextHandle, effects)
    }

    ghost predicate Valid()
      reads this
    {
      Consistent(Current())
    }

    constructor (operatorId: int)
      ensures Valid()
      ensures this.operatorId == operatorId
      ensures Current() == State([], map[], 0, [])
    {
      this.operatorId := operatorId;
      entries, timers, nextHandle, effects := [], map[], 0, [];
    }

    /** saveMaxPrice for one collection, once its offers have been fetched (or failed to be).
        `reply` is what the update endpoint answers if an update is sent. A disappearing own
        offer clears the collection's interval but leaves its entry in the list. */
    method SaveMaxPrice<J>(collectionId: string, snapshot: Result<seq<Offer>, TransportError>,
                           includeCommission: bool, reply: UpdateReply<J>) returns (outcome: Outcome)
      requires Valid()
      modifies this
      ensures Valid()
      ensures Current() == SaveStep(old(Current()), collectionId, snapshot, operatorId, includeCommission)
      ensures outcome == SaveOutcome(snapshot, operatorId, includeCommission, reply)
    {
      if snapshot.Failure? {
        return Failed(snapshot.error);
      }
      var d := Decide(snapshot.value, operatorId, includeCommission);
      if d.Untrack? {
        Teardown(collectionId, d);
        outcome := Done;
      } else {
        assert ClearedTimers(entries, collectionId, d) == {};
        assert timers - {} == timers;
        if d.Update? {
          effects := effects + [PriceSubmitted(d.offerId, d.price)];
          var r := ClassifyUpdateReply(reply);
          outcome := if r.Failure? then Failed(r.error) else Done;
        } else {
          assert effects + [] == effects;
          outcome := Done;
        }
      }
    }

    /** The branch of saveMaxPrice without an own offer: clear the collection's interval if the
        list has one, and archive an own offer that lacks an id. */
    method Teardown(collectionId: string, d: Decision)
      requires d.Untrack?
      modifies this`timers, this`effects
      ensures timers == old(timers) - ClearedTimers(entries, collectionId, d)
      ensures effects == old(effects) + SaveEffects(entries, collectionId, d)
    {
      var k := EntryIndex(entries, collectionId);
      if k.Some? {
        timers := timers - {entries[k.value].interval};
        effects := effects + [IntervalCleared(entries[k.value].interval)];
      }
      if d.prevOffer.Some? {
        effects := effects + [OfferArchived(d.prevOffer.value), ArchiveNotified];
      }
    }

    /** The interval `handle` fires: while it has not been cleared it runs saveMaxPrice, without
        commission, for the collection it was set for, and clears itself when the own offer is
        gone; a cleared interval does nothing. */
    method Fire<J>(handle: TimerHandle, snapshot: Result<seq<Offer>, TransportError>, reply: UpdateReply<J>)
      returns (outcome: Outcome)
      requires Valid()
      modifies this
      ensures Valid()
      ensures handle !in old(timers) ==> outcome == Done && Current() == old(Current())
      ensures handle in old(timers) ==>
        && outcome == SaveOutcome(snapshot, operatorId, false, reply)
        && Current() == SaveStep(old(Current()), old(timers)[handle], snapshot, operatorId, false)
      ensures handle in old(timers) ==>
        (handle !in timers <==> snapshot.Success? && Decide(snapshot.value, operatorId, false).Untrack?)
    {
      if handle !in timers {
        return Done;
      }
      FiringClearsItselfIffUntracked(Current(), handle, snapshot, operatorId);
      outcome := SaveMaxPrice(timers[handle], snapshot, false, reply);
    }

    /** The setInterval branch of startCorrectMaxOfferPrice: a new interval for `id`, pushed
        onto the list. */
    method SetInterval(id: string)
      requires Valid() && !Tracked(entries, id)
      modifies this
      ensures Valid()
      ensures Current() == Push(old(Current()), id)
    {
      effects := effects + [IntervalSet(id, nextHandle)];
      timers := timers[nextHandle := id];
      entries := entries + [Entry(id, nextHandle)];
      nextHandle := nextHandle + 1;
    }

    /** One turn of the startCorrectMaxOfferPrice loop: saveMaxPrice for `id`, then an interval
        for `id` unless the list already has an entry for it (none after a rejection). */
    method CorrectOne<J>(id: string, snapshot: Result<seq<Offer>, TransportError>, reply: UpdateReply<J>)
      returns (outcome: Outcome)
      requires Valid()
      modifies this
      ensures Valid()
      ensures Current() == CorrectStep(old(Current()), id, snapshot, reply, operatorId)
      ensures outcome == SaveOutcome(snapshot, operatorId, false, reply)
    {
      outcome := SaveMaxPrice(id, snapshot, false, reply);
      if outcome.Failed? {
        return;
      }
      var k := EntryIndex(entries, id);
      if k.None? {
        SetInterval(id);
      }
    }

    /** startCorrectMaxOfferPrice: for each fetched collection id in turn, run saveMaxPrice
        (without commission) and then set an interval for the id unless the list already has an
        entry for it. A rejected saveMaxPrice rejects the whole run. */
    method StartCorrectMaxOfferPrice<J>(collections: Result<seq<string>, TransportError>,
                                        snapshots: seq<Result<seq<Offer>, TransportError>>,
                                        replies: seq<UpdateReply<J>>)
      returns (outcome: Outcome)
      requires Valid()
      requires collections.Success? ==> |snapshots| >= |collections.value| && |replies| >= |collections.value|
      modifies this
      ensures Valid()
      ensures collections.Failure? ==> outcome == Failed(collections.error) && Current() == old(Current())
      ensures collections.Success? ==>
        (Current(), outcome) == Run(old(Current()), collections.value, snapshots, replies, operatorId)
    {
      if collections.Failure? {
        return Failed(collections.error);
      }
      var ids := collections.value;
      ghost var goal := Run(Current(), ids, snapshots, replies, operatorId);
      var i := 0;
      while i < |ids|
        invariant 0 <= i <= |ids|
        invariant Valid()
        invariant goal == Run(Current(), ids[i..], snapshots[i..], replies[i..], operatorId)
      {
        ghost var before := Current();
        assert ids[i..][0] == ids[i] && ids[i..][1..] == ids[i + 1..];
        assert snapshots[i..][0] == snapshots[i] && snapshots[i..][1..] == snapshots[i + 1..];
        assert replies[i..][0] == replies[i] && replies[i..][1..] == replies[i + 1..];
        outcome := CorrectOne(ids[i], snapshots[i], replies[i]);
        if outcome.Failed? {
          return;
        }
        i := i + 1;
      }
      outcome := Done;
    }
  }
}
