# Offer-price controller for a collection marketplace

This project models the repricing bot for a collection marketplace. The bot looks after the
operator's collection offers (standing bids on a collection):

- `saveMaxPrice` finds the operator's offer in a collection. It bids one price step (0.01)
  above the best competing offer, capped at a ceiling. The ceiling is the collection's floor,
  less an optional 5 % commission, less one step. When the operator's offer is gone, it clears
  the collection's interval and archives the own offer that has no id.
- `startCorrectMaxOfferPrice` runs `saveMaxPrice` once per collection. Afterwards it gives
  every collection not yet in the process-wide list `controlMaxOfferPriceCollectionsIntervals`
  one interval that repeats `saveMaxPrice` every 10 s.
- `portalsCheckOfferPositionUpdatePrice` sends a price update and classifies the reply.
- `searchDiscount` scans all collections for one whose best competing offer lies more than a
  threshold below an affordable floor. It reports such a collection unless the collection is
  already tracked. In that case the whole scan returns at once.
- `libs/getCollections.js` holds a cached, retrying fetch of the collections list. A file
  younger than 60 000 ms is served from disk. Otherwise up to 10 attempts are made, and the
  first success is saved to the file.

Modelling choices:

- Prices are whole numbers of cents and percentages whole numbers of basis points. Each
  `Number(x.toFixed(2))` is exact rounding of a rational number to an integer, with ties going
  away from zero (`Numbers.RoundHalfAway`). The `-Infinity` of `Math.max()` over no offers is
  `Numbers.Hundredths.NegInfinity`.
- The marketplace, the token service and the file system are oracles. They are passed in as
  values: the offers snapshot of a collection, the update endpoint's reply, the outcomes of the
  successive attempts, whether the token fetch or the file write succeeds, and the clock.
- The list of intervals is the class `Tracking.Tracker`. Its state is the value
  `Tracking.State`, and each method is proved to move it by a pure step function (`SaveStep`,
  `Push`, `CorrectStep`, `Run`), about which the lemmas speak. The fields are:
  - `entries`: the list itself;
  - `timers`: the intervals that are set and not cleared, each with its collection;
  - `nextHandle`: the next interval handle;
  - `effects`: an ordered log of everything done to the world (interval set or cleared, offer
    archived, archive notification, price submitted). `PriceSubmitted` records an update that
    was attempted: the request may still fail, or never be sent when its token fetch fails.
- `collections.json` is the field of the class `CollectionCache.Disk`.

Where the described design and the code differ, the model follows the code:

- `startCorrectMaxOfferPrice` sets an interval for every listed collection, whether or not the
  operator holds an offer there (index.js:218-228). Tracking does not mean an offer exists.
- A disappearing own offer clears the interval but leaves the entry in the list
  (index.js:168-170). That collection is never given a new interval. `searchDiscount` still
  treats it as tracked.
- index.js defines its own `getCollections` (index.js:23-46), with no cache and no retry. Both
  `startCorrectMaxOfferPrice` and `searchDiscount` call that one. The cached, retrying version
  in `libs/getCollections.js` is modelled on its own in `CollectionCache`. The two index.js
  passes receive the collections list as a fetched-or-failed value.
- `saveMaxPrice` reads the floor from the first offer of the list, which may be the operator's
  own. `searchDiscount` reads it from the first competing offer.
- With no competing offer, `saveMaxPrice` submits the price `-Infinity`. `searchDiscount`
  fails with a TypeError that rejects the whole scan (`Discount.ScanError.NoCompetitorOffer`).

## Model

| member | source | states |
|---|---|---|
| Numbers.RoundHalfAway | index.js:182-184 | the result is within half a unit of num/den, and a tie goes up for non-negative values and down for negative ones |
| Numbers.RoundedAbove | index.js:260-264 | a rounded quotient exceeds an integer t exactly when the exact quotient exceeds t + 1/2, or equals it with t non-negative |
| Pricing.MyOfferIndex | index.js:152-159 | `offers.find(isMyOffer)`: when found, the first offer whose sender is the operator; none exactly when no offer is the operator's |
| Pricing.Competitors | index.js:183 | the filtered list is never longer than the offers |
| Pricing.CompetitorsAreTheOthers | index.js:183 | the competitors are exactly the offers whose sender is not the operator |
| Pricing.MaxAmount | index.js:183 | `Math.max` over the amounts is -Infinity (None) exactly when no competitor bids |
| Pricing.MaxAmountIsMaximum | index.js:183 | the maximum is one competitor's amount and no competitor bids more |
| Pricing.AvailableMaxPrice | index.js:181-182 | the ceiling is floor - 0.01 without commission; with commission it is 95 % of the floor less 0.01, to the nearest cent; it never exceeds floor - 0.01 |
| Pricing.CeilingExamples | index.js:182 | a floor of 100.00 gives 99.99 without the commission and 94.99 with it |
| Pricing.CheapestWinningBidIsUnique | index.js:181-184 | at most one price is the cheapest winning bid under a ceiling, so that description pins needPrice down |
| Pricing.Target | index.js:181-184 | needPrice is -Infinity exactly when there is no competitor, and otherwise never exceeds the ceiling |
| Pricing.TargetIsCheapestWinningBid | index.js:181-184 | needPrice is the cheapest winning bid: -Infinity exactly when there is no competitor. Otherwise it never exceeds the ceiling, and it either beats every competitor or equals the ceiling. No cheaper price at or below the ceiling beats them all |
| Pricing.Decide | index.js:159-199 | saveMaxPrice stops tracking exactly when there is no own offer with an id, handing back the id-less own offer if there is one. An update names the own offer's id and a price different from its amount |
| Pricing.DecisionMovesToCheapestWinningBid | index.js:181-199 | with an identified own offer, the price is kept exactly when the own amount is the cheapest winning bid, and otherwise that bid is sent for the own offer's id |
| Pricing.CompetitorsIgnoreOwnOffer | index.js:183 | replacing an own offer by another own offer leaves the competitor list unchanged |
| Pricing.OwnAmountDoesNotMoveTarget | index.js:180-184 | the own offer's amount never changes needPrice |
| Pricing.UpdateThenKeep | index.js:184-199 | once the requested update is applied, a second run on the same offers keeps the price (idempotence) |
| Transport.ClassifyUpdateReply | index.js:127-145 | a thrown fetch or a non-OK status is an error carrying the status; an OK reply gives null exactly when the body is empty or not JSON, and the parsed JSON otherwise |
| Tracking.EntryIndex | index.js:168-169 | `intervals.find(... collectionId === id)`: when found, an entry for the id; none exactly when the list has no entry for the id |
| Tracking.SaveEffects | index.js:166-199 | saveMaxPrice never sets an interval. It clears one only when it stops tracking, and then the interval of the collection's entry. It submits a price only on an update decision |
| Tracking.SaveOutcome | index.js:156-199 | a failed offers fetch rejects with its error. A rejection otherwise comes only from a sent update that got no response or a non-OK status. Without an identified own offer the run resolves |
| Tracking.SubmitsOnceIffPriceDiffers | index.js:187-199 | one run submits exactly one price update when an identified own offer is not at needPrice, and none otherwise |
| Tracking.SaveStep | index.js:156-199 | saveMaxPrice leaves the list and the handle counter alone, only removes live intervals, only appends effects, and keeps the list consistent: one entry per id, and every live interval is the one of its collection's entry |
| Tracking.FiringClearsItselfIffUntracked | index.js:166-222 | in a consistent state a live interval's own run clears that interval exactly when the offers are fetched and there is no own offer with an id |
| Tracking.Push | index.js:218-228 | the setInterval branch appends one entry with the next handle, after which the id is tracked; for an untracked id the state stays consistent |
| Tracking.CorrectStep | index.js:214-229 | one loop turn keeps the state consistent and either leaves the list alone or appends exactly one entry for the id with the next handle. A rejection or an already tracked id leaves the list alone; a resolved run leaves the id tracked. Only the new handle can become live, and effects are only appended |
| Tracking.Run | index.js:213-230 | the loop over the fetched ids keeps the state consistent |
| Tracking.RunOnlyAdds | index.js:213-230 | the loop only appends entries and effects. Each new entry is for a listed id with a new handle, and no interval cleared before the loop is live after it |
| Tracking.RunCompletedTracksAll | index.js:213-230 | a loop that resolves ran every saveMaxPrice without a rejection and tracks every listed id |
| Tracking.RunRejectedAtFirstFailure | index.js:213-230 | a loop that rejects does so with the outcome of some collection k, after resolving and tracking every earlier collection |
| Tracking.BareCollectionExample | index.js:213-228 | a new collection without an own offer still gets an entry, a live interval and one IntervalSet effect |
| Tracking.BareCollectionClearsItself | index.js:166-170 | that interval, fired on the same offers, clears itself and logs IntervalCleared |
| Tracking.HeldCollectionExample | index.js:181-228 | an own offer at 1.00 against a best competitor of 1.50 under a floor of 2.00 is sent 1.51, then the collection gets its interval, and the run resolves |
| Tracking.Tracker.constructor | index.js:7 | the list starts empty, with no intervals and nothing done |
| Tracking.Tracker.SaveMaxPrice | index.js:156-200 | the new state is SaveStep of the old one and the outcome is SaveOutcome; the state stays consistent |
| Tracking.Tracker.Teardown | index.js:166-177 | clears the entry's interval if the list has one, and archives and notifies an own offer without an id, in that order |
| Tracking.Tracker.Fire | index.js:220-222 | a live interval runs saveMaxPrice without commission for its own collection, and is cleared by it exactly when the offers are fetched and there is no own offer with an id; a cleared one does nothing and changes nothing |
| Tracking.Tracker.SetInterval | index.js:218-228 | the new state is Push of the old one, for an untracked id; the state stays consistent |
| Tracking.Tracker.CorrectOne | index.js:214-229 | the new state is CorrectStep of the old one and the outcome is saveMaxPrice's |
| Tracking.Tracker.StartCorrectMaxOfferPrice | index.js:209-230 | a failed collections fetch rejects and changes nothing; otherwise the new state and the outcome are Run of the old state over the fetched ids |
| Discount.DiffPercent | index.js:258-260 | diffPercent is 10000 * (floor - max - 0.01) / floor basis points to the nearest unit; -Infinity exactly when the floor is 0 |
| Discount.ComfortPrice | index.js:261 | maxComfortPrice is the floor less needDiffPercent of it, to the nearest cent, and never above the floor for a non-negative threshold |
| Discount.QualifiesIffExactGap | index.js:260-264 | a collection qualifies iff the floor is within maxPrice and the exact gap is more than half a basis point above the threshold (a tie counts for a non-negative threshold) |
| Discount.StepAt | index.js:256-295 | one collection: a failed offers fetch rejects with its error; any outcome but a rejection needs competitors. A stop means the collection is tracked. A report is for this collection, passed the test, is not tracked, and its getMyOffer and notification both resolved |
| Discount.GapExample | index.js:260-264 | a floor of 50.00 under a best offer of 40.00 gives a gap of 19.98 %, which qualifies against 10 %; the comfort price is 45.00 |
| Discount.CollectionIndex | index.js:273 | `collections.find(({ id }) => id === collectionId)`: the first collection with the id, or none exactly when there is none |
| Discount.Pass | index.js:256-295 | the loop goes through collections in order, skipping or reporting each. It stops at the first collection that is tracked and qualifies, and the pass then resolves; or at the first failure, and the pass then rejects with it. It resolves with the findings of the collections before the stop |
| Discount.SearchDiscount | index.js:248-296 | a falsy needDiffPercent or maxPrice rejects before any fetch, and nothing else rejects with that error; a failed collections fetch rejects; otherwise the result is that of the loop |
| Discount.FindingsQualify | index.js:264-281 | a reported collection qualifies, is not tracked, appears in the list, and is named after the first collection with its id |
| Discount.AllTrackedReportsNothing | index.js:264-268 | when every collection is tracked, as after a completed startCorrectMaxOfferPrice, the scan reports nothing |
| CollectionCache.CacheHit | libs/getCollections.js:9-23 | the cache yields data exactly when the file exists, is younger than 60 000 ms and reads and parses; the data is the file's content; any read error falls through |
| CollectionCache.AttemptResult | libs/getCollections.js:53-59 | an attempt succeeds exactly when the request resolves with an OK status and a JSON body. A non-OK status fails it with that status, just as a thrown fetch does |
| CollectionCache.FirstSuccess | libs/getCollections.js:50-69 | the first successful attempt among the first n, with every earlier one failed, or none exactly when all failed |
| CollectionCache.FirstSuccessIsFirst | libs/getCollections.js:50-69 | a success after failures at every earlier attempt is the first success however many attempts are allowed |
| CollectionCache.RetryOutcome | libs/getCollections.js:49-81 | the loop succeeds exactly when one of the first maxRetries attempts does; otherwise it rejects with an error naming maxRetries and the last attempt's failure |
| CollectionCache.RequestsMade | libs/getCollections.js:50-75 | never more than maxRetries requests |
| CollectionCache.RetryOutcomeIsFirstSuccess | libs/getCollections.js:49-81 | a success carries the data of the last request made, which is the first successful attempt, with no request after it. A failure made all maxRetries requests |
| CollectionCache.Disk.MakeRequestWithRetries | libs/getCollections.js:49-81 | the result and request count are those of the first success, and a pause follows every failed attempt but the last. The file is written only on success, and a failed write does not change the result |
| CollectionCache.Disk.GetCollections | libs/getCollections.js:5-84 | a cache hit returns the file's data with no request and no write. Otherwise a token failure rejects before any attempt, and else the 10-attempt loop decides |
| CollectionCache.WrittenDataIsServed | libs/getCollections.js:10-19 | data saved by a successful request is served back for the next minute |

## Left out

- HTTP framing: headers, cookies, URLs and the JSON shape of the bodies (index.js:23-124,
  libs/getCollections.js:28-46). Every call's outcome is an input value.
- `libs/getToken.js`, `database.js`, `db-manager.js` and `telegram-bot.js` are not part of
  this model.
- Real time: intervals are handles and `Date.now`/`mtime` are integer parameters.
  `Tracker.Fire` is driven by the caller. The one-second `delay` calls in
  `startCorrectMaxOfferPrice` and `searchDiscount` (index.js:216, 262) are not modelled at all.
  The retry pause of `libs/getCollections.js` is not waited either; only its total is
  reported.
- `start` (index.js:237-242) is not modelled. It runs a function and repeats it on a timer.
  For `startCorrectMaxOfferPrice` it is called without an interval (index.js:299), so the
  timer's delay is `NaN`, which the runtime treats as about 1 ms. The runs then overlap, which
  is concurrency (below). A rejected run there is an unhandled rejection.
- Concurrency: the async passes and interval callbacks can interleave at every `await`. The
  model runs each pass to completion. `Discount.SearchDiscount` reads a snapshot of the
  interval list, which it never changes.
- Floating point: amounts are whole cents and thresholds whole basis points. `toFixed` is
  modelled on the exact decimal value, so a binary-float tie may round differently in the
  program.
- The `USER_ID` parse: the operator id is an integer, so a `NaN` id (which matches nobody) is
  not modelled.
- The archive file name (`last_offer_<Date.now()>.json`) and a failure of that write or of the
  notification fetch are not modelled. They appear as the effects `OfferArchived` and
  `ArchiveNotified`.
- The console output of `searchDiscount` is not modelled separately. A reported collection
  is a `Discount.Finding` carrying the logged figures and the notified name and gap.
  `libs/sendNotification.js` is not part of this model: only whether its call resolves
  matters, and a rejection rejects the scan (unhandled, under `start`).
- Tracking.SaveEffects: `PriceSubmitted` is logged before the request, so it also stands for
  an update whose request failed or whose token fetch failed before anything was sent.
- getMyOffer in searchDiscount (index.js:270): only its success or failure matters, since its
  result is unused.
- CollectionCache.Disk.MakeRequestWithRetries: requires at least one attempt. With
  `maxRetries` 0 the function resolves to `undefined`, and the only call uses the default of
  10.
- CollectionCache.Disk.GetCollections: a read error and an unparsable file are both the
  file's missing content. A `statSync` that throws after `existsSync` is not told apart.
- optimizedGetCollections (index.js:10-21) is never called and is not modelled.
