# A verified model of gordap

gordap is a read-only RDAP server. This project models the parts of it that carry state or a
meaning to be preserved, and proves what they promise over all inputs and all runs.

| part | modules |
|---|---|
| record cache: many callers, background refreshes, singleflight, LRU buckets | `Lru`, `LruHistory`, `RecordCache`, `Singleflight`, `RecordCacheRuns`, `RecordCacheScenes`, `RecordCacheWitness`, `RecordCacheProgress`, `RecordCacheCrash`, `RecordCacheOrder` |
| response cache, redaction, mapper and handlers together | `Redaction`, `Mapper`, `JCardProjection`, `Rendering`, `ResponseCache`, `Server`, `LookupAnswers`, `NonInterference`, `SearchDisclosure`, `CachedHits` |
| token-bucket rate limiter | `RateLimit`, `RateLimitPruning` |
| search patterns, term matchers and the cursor walk | `Pattern`, `SearchMatch`, `Paging`, `SearchAnswers` |
| gzip response writer | `Gzip` |
| IP prefix and bootstrap lookups, replay table | `Prefixes`, `Bootstrap`, `Replay` |

`Common` and `Text` hold shared types and string helpers. `dafny verify dfyconfig.toml` checks everything.

How it is modelled:

- Structures the code updates in place are classes (`Lru.Table`, `ResponseCache.Cache`, `RateLimit.RateLimiter`,
  `Gzip.GzipWriter`, `Bootstrap.Registry`, `Replay.ReplayCache`, `Paging.Records`). Each method is proved to
  implement a function on values, and the theorems are about runs of those functions.
- The record cache is a step machine. Each action is one critical section or one clock read, so every
  interleaving of goroutines is a sequence of actions. The gaps of the code are kept: Done comes before the delete
  of the call, the removal of an expired entry is separate from the lookup that saw it, and every joiner stores its own
  copy later. A failed cast in a background refresh is a panic nobody recovers, so it ends the
  process (`State.down`) and nothing moves any more. `Call.cls`, `Call.leader` and `Outcome.fetchedAt` are history that is only used to state properties.
- The middleware is a machine over `Arrive` and `Finish` events, so requests overlap. Each arrival carries the store
  it reads, so the store may change over a run.
- Clock readings are arguments: integers for the caches, reals for the limiter, where rate, burst and tokens are exact
  reals. The random order in which Go ranges over a map is an argument too (`Mapper.MapOrder`), or is quantified
  over (`Paging`).
- Lower-casing in `Pattern`, and both case mappings in `SearchMatch`, are any character maps that meet `CaseFolding`;
  `AsciiLower` is one.

Where the code and its documentation part ways, the model follows the code:

- `ToJCard` ranges over Go maps, so the order of email and telephone properties is not fixed. This cannot show to an
  anonymous caller (`Mapper.CardOrderInvisible`), and elsewhere the theorems name the order.
- The response-cache comment says a stored body is right for its key. The key leaves out the jCard negotiation;
  `CachedHits.HitIsFreshIff` gives, for every hit, the exact condition under which that shows.
- Entity searches match their terms against the raw record and only then redact what they return, so a term on a
  hidden field discloses it. `SearchDisclosure.RequestTellsNothingIff` gives the exact condition.
- A comment on `ilikePattern` takes the handle column to be lower-case. The schema does not keep it so, nor the full
  name; `Pattern.BackendsAgreeOnAllNamesIff` and `Pattern.BackendsAgreeOnHandlesIff` give the exact conditions.
- A person's address that holds only a country is marked as redacted although nothing was removed;
  `Redaction.SignalledIffLost` states this as the one exception.
- The singleflight table is shared by the four object classes; `Singleflight.CastFailsIffForeignCall` gives the exact
  condition under which a caller's cast fails, and `RecordCacheCrash.AllCallersFinishIff` the one under which it can
  end the process.
- The replay table is meant to make a token unusable after its first verification. It forgets a token at its expiry,
  which the verifier extends by the clock skew; `Replay.UsedTokenPassesIff` gives the exact condition.

## Model

| member | source | states |
|---|---|---|
| `Singleflight.OneFetchPerKey` | pkg/rdap/cache/cache.go:276-298 | in every interleaving at most one thread leads a key, so at most one backend fetch per key is in progress |
| `Singleflight.DeleteRemovesOwnCall` | pkg/rdap/cache/cache.go:294-296 | the table entry a leader deletes is its own call, and no other key's entry changes |
| `Singleflight.JoinersReturnLeadersOutcome` | pkg/rdap/cache/cache.go:281-297 | whatever the leader's fetch returned, every caller sharing the call leaves `do` with that value and error, however the run goes on |
| `Singleflight.CastFailsIffForeignCall` | pkg/rdap/cache/cache.go:128-135 | a caller entering singleflight ends in the failed type assertion if and only if the call in flight under its key was started for another object class |
| `Singleflight.CastNeverFails` | pkg/rdap/cache/cache.go:67-67 | no cast fails in a run in which nobody enters singleflight while a thread of another class leads the key |
| `Singleflight.FinishedHoldsOwnRecord` | pkg/rdap/cache/cache.go:107-138 | every finished caller holds a record of its own class and key, from the cache or from a fetch |
| `Singleflight.RunEvolves` | pkg/rdap/cache/cache.go:270-298 | over any run a call keeps its key, class, leader and, once set, its result; a thread keeps its class, key and call |
| `RecordCache.RunKeeps` | pkg/rdap/cache/cache.go:107-157 | every action of every thread keeps the invariant that ties threads, calls, the in-flight table and the buckets together |
| `RecordCacheWitness.SharedNameCrashes` | pkg/rdap/cache/cache.go:159-169 | for any two callers of one name and different object classes, a run in which the second joins the first one's call and its cast fails |
| `RecordCacheRuns.ServedAgeBound` | pkg/rdap/cache/cache.go:100-138 | if every store-time reading is at most D after its fetch, every served outcome is younger than D + TTL + StaleTTL at the reading that admitted it (NegTTL for errors) |
| `RecordCacheWitness.AgeBoundIsAttained` | pkg/rdap/cache/cache.go:136-136 | for every D and any three callers of one record, a run with an ordered clock in which a late joiner's store leads to an outcome served one clock tick below that bound, the largest age it allows, so without a bound on D no age bound holds |
| `RecordCacheProgress.RunsEnd` | pkg/rdap/cache/cache.go:107-157 | the work of all threads falls with every action, refreshes included, so a run is no longer than the initial work |
| `RecordCacheProgress.SomeoneCanMoveIff` | pkg/rdap/cache/cache.go:276-298 | in every reachable state with an unfinished caller some action is enabled if and only if no refresh's cast has failed |
| `RecordCacheProgress.MaximalRunFinishesAll` | pkg/rdap/cache/cache.go:107-157 | a run that cannot be extended ends with the process down if and only if some refresh entered a call of another class; otherwise it has finished every caller |
| `RecordCacheProgress.SomeCastFailsIff` | pkg/rdap/cache/cache.go:128-135 | in a run that cannot be extended some cast fails if and only if somebody entered a call of another class |
| `RecordCacheCrash.RefreshFalls` | pkg/rdap/cache/cache.go:120-155 | given two callers of one class and one of another under one key, a run with an ordered clock in which a refresh joins the other class's call, its cast fails and the process ends with a caller unfinished |
| `RecordCacheCrash.AllCallersFinishIff` | pkg/rdap/cache/cache.go:107-157 | every run of given callers that cannot be extended finishes all of them if and only if stale serving is off or no key is asked for by two callers of one class and one of another, for any clock and for ordered ones |
| `RecordCacheOrder.CanGoBackIff` | pkg/rdap/cache/cache.go:134-137 | given callers have a run with an ordered clock in which a store replaces the outcome of a later fetch by that of an earlier one if and only if two of them ask for one record |
| `RecordCacheOrder.NeverGoesBack` | pkg/rdap/cache/cache.go:107-157 | with an ordered clock, the fetch times of what is stored and served for a record never decrease in a run in which nobody starts a fetch of it while somebody is still to store an earlier outcome |
| `RecordCacheOrder.ServedIff` | pkg/rdap/cache/cache.go:107-124 | a lookup is served if and only if an entry is there and its expiry plus the stale window is still to come; it starts a refresh exactly when the expiry has come, and goes straight to singleflight exactly when nothing is cached |
| `RecordCacheOrder.ExpiredIsDropped` | pkg/rdap/cache/cache.go:123-123 | in every run an entry found past its time is gone before its finder goes on to singleflight |
| `Lru.Table.constructor` | pkg/rdap/cache/cache.go:213-215 | an empty table of the given capacity, map and list in agreement |
| `Lru.Table.Get` | pkg/rdap/cache/cache.go:217-225 | answers the stored value and moves the key to the front; map and list stay in agreement |
| `Lru.Table.Put` | pkg/rdap/cache/cache.go:227-242 | stores at the front and the eviction loop cuts the recency list to capacity, dropping its back |
| `Lru.Table.Remove` | pkg/rdap/cache/cache.go:244-251 | drops exactly the key from map and list |
| `LruHistory.TableIsRecencyCut` | pkg/rdap/cache/cache.go:217-242 | after any gets and puts the table's keys are the unbounded most-recently-touched list cut to capacity |
| `LruHistory.PresentIff` | pkg/rdap/cache/cache.go:217-251 | with removals, a key is present if and only if it was put, not removed since, and at no time since had capacity other keys, touched after it and not removed, ahead of it |
| `LruHistory.PresentIffRecent` | pkg/rdap/cache/cache.go:227-242 | a key is present if and only if it was put and fewer than capacity distinct keys were touched since it was |
| `LruHistory.PresentHoldsLastPut` | pkg/rdap/cache/cache.go:227-251 | a present key holds the value of its latest put, whatever was evicted, removed or touched meanwhile |
| `RateLimit.RateLimiter.Allow` | pkg/rdap/middleware/ratelimit.go:52-78 | answer and new table of one call, including the disabled limiter and readings that go back |
| `RateLimit.RateLimiter.CleanupIdle` | pkg/rdap/middleware/ratelimit.go:177-186 | exactly the buckets last seen before the cutoff are dropped |
| `RateLimit.RefusedIffEnvelopeExceeded` | pkg/rdap/middleware/ratelimit.go:52-78 | for every run, any readings and any interleaving of keys: refused if and only if admitting would make some window of the key's requests ending now hold more than burst + rate * forward time admissions; a rate that is not positive refuses nobody |
| `RateLimit.RefusedIffWindowOverfull` | pkg/rdap/middleware/ratelimit.go:52-78 | for readings of a key that do not decrease, the same with ordinary window length |
| `RateLimit.AllowanceIsRateTimesForward` | pkg/rdap/middleware/ratelimit.go:66-69 | what accrues between two requests is the rate times the time that ran forward between their readings |
| `RateLimit.BackwardClockOverfills` | pkg/rdap/middleware/ratelimit.go:70-70 | a reading that goes back lets a window of zero length hold more than the burst |
| `RateLimitPruning.PruningInvisibleIff` | pkg/rdap/middleware/ratelimit.go:177-186 | inserting CleanupIdle calls anywhere changes no answer of any run whose readings do not decrease if and only if the limiter is off, burst < 1 or burst <= rate * maxIdle |
| `NonInterference.TierLearnsNothing` | pkg/rdap/handlers/response_cache.go:23-68 | two runs over stores that agree on what a tier is shown answer every request of that tier alike, through hits, misses, expiry, eviction and overlapping requests of all tiers; the one exception are entity searches with a term on a field the tier is not shown |
| `SearchDisclosure.RequestTellsNothingIff` | pkg/rdap/handlers/search.go:61-94 | a request is answered alike over all stores that look the same to its tier if and only if it is no entity search with a term on a hidden field (the full-name patterns that accept everything excepted) |
| `SearchDisclosure.TermTellsNothingIff` | pkg/rdap/storage/memory/search.go:103-139 | one term answers alike for all contacts that look the same to a tier if and only if the tier is shown its field or it is a full-name pattern that accepts everything |
| `SearchDisclosure.FieldTellsNothingIff` | pkg/rdap/storage/memory/search.go:103-139 | a field answers alike whatever the pattern if and only if it is handle or country code, email for authenticated callers, any for privileged ones |
| `SearchDisclosure.AnonymousSearchLeaks` | pkg/rdap/storage/memory/search.go:118-128 | two persons that look the same to an anonymous caller and whom an email term tells apart |
| `SearchMatch.MatchEntity` | pkg/rdap/storage/memory/search.go:103-139 | the loop over the terms accepts exactly the contacts that meet every term, in whatever order the map yields them |
| `SearchMatch.SearchIsListing` | pkg/rdap/storage/memory/search.go:37-55 | the records a search endpoint pages through are the one sorted listing of the matches |
| `SearchMatch.SearchAlike` | pkg/rdap/storage/memory/search.go:16-74 | stores whose records are alike pair by pair, under a likeness that sort name and match test cannot see through, give pages that are alike |
| `Redaction.ViewReveals` | pkg/rdap/mapper/redact.go:75-137 | for every tier, two contacts have the same view if and only if they share the fields listed for it: anonymous callers see organisation, an organisation's address, a person's country and which person fields are present; authenticated ones also emails, phones and an organisation's name; privileged ones all but the extras |
| `Redaction.TierDecidesView` | pkg/rdap/auth/access.go:20-29 | levels with the same tier name, unknown levels included, get the same view |
| `Redaction.TiersAreOrdered` | pkg/rdap/mapper/redact.go:64-137 | field by field a lower tier never shows what a higher one does not, all see the organisation, and the privileged view loses nothing |
| `Redaction.MarksAreLosses` | pkg/rdap/mapper/redact.go:99-134 | a person's marks are exactly the fields the view drops or shortens, plus an address that is only a country |
| `Redaction.SignalledIffLost` | pkg/rdap/mapper/redact.go:143-166 | a kind has a marker if and only if some person among the contacts loses that field (or has an address that is only a country), it then has exactly one, and no marker is about a field nobody holds |
| `Redaction.MarkerTable` | pkg/rdap/mapper/redact.go:39-56 | the description, the JSON path and the reason of each marker |
| `Redaction.BuildRedacted` | pkg/rdap/mapper/redact.go:143-166 | the loop yields one marker per kind, in order of first occurrence |
| `Mapper.MapDomain` | pkg/rdap/mapper/mapper.go:51-82 | the contact loop computes the rendering that `Rendering.DomainShowsRecord` is about |
| `Mapper.ToJCard` | pkg/rdap/jscontact/jcard.go:21-102 | the property list for the given map orders |
| `Mapper.FillSlots` | pkg/rdap/jscontact/jcard.go:61-94 | the component loop fills the seven address slots, country code as fallback |
| `JCardProjection.JCardReadsBackView` | pkg/rdap/mapper/mapper.go:261-349 | reading a jCard back gives the redacted view its card was built from, the kinds of phone numbers included, whatever order maps are ranged over |
| `JCardProjection.OrderOnlyPermutes` | pkg/rdap/jscontact/jcard.go:41-60 | map orders change nothing but the order of properties |
| `JCardProjection.AddressReadsBack` | pkg/rdap/jscontact/jcard.go:61-94 | an address goes through card components into the vCard slots unchanged, street lines trimmed and joined |
| `Rendering.EntityShowsContact` | pkg/rdap/mapper/mapper.go:152-167 | for every contact, level and negotiation: both formats are absent for an empty view, only the jCard is there for a caller who asked for it alone, otherwise the card and, where the server says so, the jCard; each gives the caller's view back; handle and roles are the record's |
| `Rendering.CardShown` | pkg/rdap/mapper/mapper.go:261-349 | the card holds the view's name, organisation, title, emails, phones and address, an identifier made of the handle, the kind and the times of the record |
| `Rendering.EntityShowsRegistrar` | pkg/rdap/mapper/mapper.go:434-467 | the registrar: its organisation in both formats, its IANA identifier, and the abuse contact as the caller may see it |
| `Rendering.DomainShowsRecord` | pkg/rdap/mapper/mapper.go:51-82 | entity i shows contact i, the registrar follows, the contact-free part is the record's, and the markers tell what the persons among the contacts lost |
| `Rendering.EntityShowsRecord` | pkg/rdap/mapper/mapper.go:171-193 | a stand-alone entity shows the contact; its markers are its own, with paths that start at the root |
| `Mapper.CardOrderInvisible` | pkg/rdap/jscontact/jcard.go:41-60 | a card without emails and phones has one jCard, whatever order maps are ranged over |
| `Mapper.DomainSame` | pkg/rdap/mapper/mapper.go:51-82 | domains that agree on what a tier is shown render alike for it, registrar and abuse contact included |
| `Mapper.EntityTopLevelSame` | pkg/rdap/mapper/mapper.go:171-185 | the same for a stand-alone entity |
| `ResponseCache.Cache.Get` | pkg/rdap/cache/response.go:99-118 | miss when disabled, absent or expired; an expired entry is dropped, a live one is moved to the front |
| `ResponseCache.Cache.Put` | pkg/rdap/cache/response.go:122-150 | stores with expiry now + ttl and evicts to capacity; nothing when disabled |
| `Server.ClassifyInvertsPath` | pkg/rdap/handlers/response_cache.go:75-90 | a path has a target if and only if it is that target's one path, so equal keys name the same object |
| `Server.StorableIffKnown` | pkg/rdap/handlers/response_cache.go:60-65 | exactly acceptable requests for known objects get a response the cache stores |
| `LookupAnswers.DomainLookup` | pkg/rdap/handlers/handlers.go:133-176 | the domain as the caller may see it, a redirect to the server that has it (slashes behind its base taken off), or the error for an unacceptable, malformed or unknown name |
| `LookupAnswers.EntityLookup` | pkg/rdap/handlers/handlers.go:178-195 | the same for an entity |
| `LookupAnswers.NameserverLookup` | pkg/rdap/handlers/handlers.go:197-223 | the same for a nameserver |
| `LookupAnswers.NetworkLookup` | pkg/rdap/handlers/handlers.go:225-248 | the first network that contains the address, or a redirect with the canonical address, or an error |
| `LookupAnswers.BottomNavigation` | pkg/rdap/handlers/rirsearch.go:18-43 | the first network that contains the address, or an error |
| `LookupAnswers.NavigationRefused` | pkg/rdap/handlers/rirsearch.go:47-53 | the other navigation verbs are not implemented |
| `LookupAnswers.OtherRequests` | pkg/rdap/handlers/router.go:17-40 | other methods are refused, the help page is there |
| `LookupAnswers.NoSegment` | pkg/rdap/handlers/router.go:17-20 | a lookup path without exactly one segment behind it is refused |
| `LookupAnswers.UnknownIsRefused` | pkg/rdap/handlers/router.go:38-40 | every path the router does not know is refused |
| `Server.Serve` | pkg/rdap/handlers/response_cache.go:28-66 | one request served by the middleware is the event machine's arrival followed by its finish |
| `Server.FinishedOnce` | pkg/rdap/handlers/response_cache.go:57-65 | a capture is stored once |
| `CachedHits.HitReplaysRendering` | pkg/rdap/handlers/response_cache.go:47-65 | every hit of every run replays unchanged the body, status and kept headers of a 2xx response rendered for the same object, id and tier, given to its own client, and stored at most ttl before |
| `CachedHits.KeyDecidesRendering` | pkg/rdap/handlers/response_cache.go:40-47 | on an unchanged store, key, jCard negotiation and (where it shows) map order decide the rendering |
| `CachedHits.HitIsFreshIff` | pkg/rdap/handlers/response_cache.go:47-65 | every hit of every run replays an earlier miss; when the requests with its key found the named object alike (and, where it shows, met one map order), its body is what a fresh rendering would be if and only if that miss negotiated alike or the object shows no card to that tier |
| `CachedHits.HitIgnoresNegotiation` | pkg/rdap/handlers/handlers.go:93-105 | a run in which a request of the other negotiation is a hit, and so gets the wrong form exactly when a card is shown |
| `CachedHits.NegotiationShows` | pkg/rdap/mapper/mapper.go:152-167 | the two negotiations render alike if and only if no contact card is shown |
| `Pattern.IlikePattern` | pkg/rdap/storage/postgres/search.go:27-46 | the builder loop computes the translated, lower-cased pattern |
| `Pattern.LikeIsGlob` | pkg/rdap/storage/postgres/search.go:27-46 | for every pattern and string, LIKE with the translated pattern accepts exactly what the lower-cased glob accepts |
| `Pattern.TranslationWellFormed` | pkg/rdap/storage/postgres/search.go:33-35 | the translated pattern never has a dangling escape |
| `Pattern.LikeWildcards` | pkg/rdap/storage/postgres/search.go:30-38 | the wildcards and the escape of LIKE that the translation relies on |
| `Pattern.MatchIsGlobIff` | pkg/rdap/search/search.go:83-109 | the in-memory matcher is the glob if and only if the pattern's core has no star |
| `Pattern.InnerStarDiffers` | pkg/rdap/search/search.go:81-82 | for every pattern with an inner star, a string the glob accepts and the matcher refuses |
| `Pattern.BackendsAgreeIff` | pkg/rdap/storage/postgres/search.go:52-66 | on lower-case names SQL LIKE and the in-memory matcher agree if and only if the lower-cased pattern has no inner star |
| `Pattern.BackendsAgreeOnAllNamesIff` | pkg/rdap/storage/postgres/search.go:91-94 | on names of any case they agree if and only if the lower-cased core has no star and no character with an upper case |
| `Pattern.BackendsAgreeOnHandlesIff` | pkg/rdap/storage/postgres/search.go:95-98 | on handles, which the in-memory matcher compares as they are, they agree if and only if the pattern has no inner star and is lower-case |
| `Paging.Records.Put` | pkg/rdap/storage/memory/memory.go:32-48 | records stay filed under the key made from their name |
| `Paging.PutKeepsNamesDistinct` | pkg/rdap/storage/memory/memory.go:32-48 | in a store so filed no two records sort alike |
| `Paging.Search` | pkg/rdap/storage/memory/search.go:16-35 | whatever order the map yields, the answer is the page of the one sorted list of matches |
| `Paging.ListingUnique` | pkg/rdap/storage/memory/search.go:24-25 | the sorted list of matches is unique |
| `Paging.LessIsLexicographic` | pkg/rdap/storage/memory/search.go:25-25 | the order of names is that of dictionaries |
| `Paging.PageLaw` | pkg/rdap/handlers/search.go:131-182 | what given paging controls get of a list: page size (50 unless asked, 500 at most), start (an offset wins over a cursor), items, total, page number and next cursor, and no paging data exactly when the first page is all |
| `Paging.WalkVisitsEverything` | pkg/rdap/handlers/search.go:139-182 | following the cursor visits every match exactly once in sorted order, in max(1, ceil(total / limit)) pages numbered from 1 |
| `Paging.WalkEnds` | pkg/rdap/handlers/search.go:163-182 | following the cursor comes to an end for every list and count |
| `SearchAnswers.DomainSearchAnswers` | pkg/rdap/handlers/search.go:25-58 | for patterns with stars only at the ends, the answer is the request's page of the domains whose LDH or Unicode name the name glob accepts and some nameserver of which the other one accepts, none for a term on an address, sorted by LDH name and shown as the caller may see them |
| `SearchAnswers.EntitySearchAnswers` | pkg/rdap/handlers/search.go:61-94 | the same for contacts by full name (or organisation), handle, email and country code |
| `SearchAnswers.NameserverSearchAnswers` | pkg/rdap/handlers/search.go:97-129 | the same for nameservers by name and address |
| `SearchAnswers.SearchRefused` | pkg/rdap/handlers/search.go:26-38 | a search succeeds if and only if search is on, the media type is acceptable and some term is asked; the error otherwise |
| `SearchAnswers.DomainWalkFinds` | pkg/rdap/storage/memory/search.go:76-92 | over the pages of a domain search a domain is shown if and only if it meets every term |
| `SearchAnswers.EntityWalkFinds` | pkg/rdap/storage/memory/search.go:103-139 | the same for contacts |
| `SearchAnswers.NameserverWalkFinds` | pkg/rdap/storage/memory/search.go:141-164 | the same for nameservers |
| `Gzip.GzipWriter.Write` | pkg/rdap/middleware/gzip.go:76-89 | new state of the writer, buffering, committing or passing through |
| `Gzip.GzipWriter.Commit` | pkg/rdap/middleware/gzip.go:91-112 | compressed or plain commit, with the headers it sets |
| `Gzip.GzipWriter.Close` | pkg/rdap/middleware/gzip.go:114-126 | flushes an uncommitted body plainly, ends a compressed stream |
| `Gzip.ClosedResponse` | pkg/rdap/middleware/gzip.go:70-126 | any calls followed by Close send one status first, the last set before the commit; the received body is the concatenation of the writes, wholly plain or wholly one finished compressed stream, as the headers say |
| `Gzip.ChunkingIsIrrelevant` | pkg/rdap/middleware/gzip.go:83-96 | for a non-empty body and fixed content type, compression depends only on total length and content type |
| `Gzip.CompressibleIff` | pkg/rdap/middleware/gzip.go:132-142 | a content type is worth compressing if and only if its media type, without white space and parameters and in any case of letters, is empty or starts with text/, application/json, application/rdap+json, application/xml or application/javascript |
| `Gzip.EmptyBodyDependsOnWrite` | pkg/rdap/middleware/gzip.go:114-121 | at threshold zero an empty write and no write differ |
| `Prefixes.Scan` | pkg/rdap/storage/memory/memory.go:83-92 | the scan returns the first entry that contains the address |
| `Prefixes.ContainsIff` | pkg/rdap/storage/memory/memory.go:87-87 | a prefix contains an address of its family that agrees with it in its first bits |
| `Prefixes.ContainingFormChain` | pkg/rdap/storage/memory/memory.go:87-87 | prefixes that contain one address form a chain |
| `Prefixes.ScanFindsLongestIff` | pkg/rdap/bootstrap/bootstrap.go:147-151 | the first match is a longest match for every address if and only if every entry behind a wider one that covers it is already shadowed by the entries before the wider one |
| `Prefixes.NarrowFirstSuffices` | pkg/rdap/storage/memory/memory.go:50-54 | it is whenever no entry is preceded by a strictly wider entry containing it |
| `Prefixes.WideFirstFails` | pkg/rdap/storage/memory/memory.go:86-90 | a nested pair with the wider entry first fails, the other order works |
| `Prefixes.MemoryAgreesWithPostgres` | pkg/rdap/storage/postgres/postgres.go:465-471 | with that order and no two equal networks, the scan and the masklen-descending query name the same row |
| `Bootstrap.Registry.Refresh` | pkg/rdap/bootstrap/bootstrap.go:59-87 | all three tables are rebuilt from the files, or none is touched when a download failed |
| `Bootstrap.ParsePrefixes` | pkg/rdap/bootstrap/bootstrap.go:89-102 | the parsable prefixes of services with both parts, in published order |
| `Bootstrap.Registry.DomainServers` | pkg/rdap/bootstrap/bootstrap.go:127-138 | the loop over the labels computes the answer that `Bootstrap.DomainServersIsBruteForce` is about |
| `Bootstrap.Registry.IPServers` | pkg/rdap/bootstrap/bootstrap.go:140-153 | the first entry of the address's family that contains it |
| `Bootstrap.DomainServersIsBruteForce` | pkg/rdap/bootstrap/bootstrap.go:75-138 | after Refresh the answer is that of the longest published zone that the name equals or ends in behind a dot, in any case of letters, the last published of equals; none exactly when no zone matches; a final dot makes no difference |
| `Bootstrap.IPServersIsBruteForceIff` | pkg/rdap/bootstrap/bootstrap.go:89-153 | after Refresh nothing is answered exactly when no published prefix contains the address, and every address gets the urls of a longest published prefix if and only if, wherever a wider entry with other urls stands before one it covers, every address of the covered one is in an earlier or a still narrower entry |
| `Replay.ReplayCache.Check` | pkg/rdap/auth/jwks/replay.go:38-60 | answer and new table of one check, pruning loop included |
| `Replay.PruningNeverChangesAnswer` | pkg/rdap/auth/jwks/replay.go:45-53 | with a clock that does not go back, every answer is that of a never-pruned table |
| `Replay.ReplayedIffAcceptedBefore` | pkg/rdap/auth/jwks/replay.go:55-59 | a token is reported as replayed if and only if an earlier check accepted it and that acceptance has not expired |
| `Replay.PassesIff` | pkg/rdap/auth/jwks/jwks.go:155-173 | a sound token within the clock skew passes the verifier unless one with its identifier has passed before and that one's expiry, without the skew, is still to come |
| `Replay.UsedTokenPassesIff` | pkg/rdap/auth/jwks/jwks.go:155-173 | a token that has passed and is presented again within the skew passes again if and only if its expiry has come |
| `Replay.SkewReopensToken` | pkg/rdap/auth/jwks/replay.go:55-58 | one token that passes three times: before its expiry, at it, and at the end of the skew |

## Left out

- HTTP serving, routing, CORS, timeouts, logging, metrics and audit: plumbing without a hard property.
- The SQL of the Postgres searches beyond LIKE and the order by mask length: the search endpoints of `Server` are those over the in-memory store.
- JWT signatures and claims other than the expiry, and JWKS fetching: whether they are in order is a field of the presentation.
- IDN normalisation, path validation, CIDR and address parsing, bootstrap downloads: arguments of the model.
- gzip, base64, decimal and JSON libraries: a compressed stream decodes to what was written, a cursor is the offset it encodes, a JSON body is the object it encodes and is not empty.
- Floating-point rounding and 64-bit overflow: the limiter uses exact reals, paging unbounded integers.
- Aliasing between list elements and map values in the LRU: the map holds values and the list holds keys.
- Status names, events, self links, notices and conformance lists of responses: the contact-free part of a domain is copied, the rest is the same for every response of a server.
- The hexadecimal form of the UID, `@type` members and preference numbers of cards: constant or positional.
- Percent-decoding and cleaning of paths, the separate error title for over-long names, and dropping the body of an answer to HEAD.
- Panics inside a fetch, the ten-second timeout of a refresh, and a second Close of the gzip writer.
- Seeder, stress tools, synthetic names, configuration and profile presets: tooling or easy members.
