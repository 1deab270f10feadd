# Dining place aggregation — a Dafny model

This project models the deterministic core of the `dining` application. The
application collects restaurants, cafés and parking lots around Seoul from
several crawlers (DiningCode, Naver, Instagram, public parking APIs), merges
them, caches them in a database and recommends courses through an LLM with a
keyword fallback. The repository has a TypeScript (Next.js) implementation
and a Python port under `docs/samples/`. Both are modelled. Where the ports
differ, a `Lang` (`TS` / `Py`) or `Dialect` parameter selects the behaviour.

What is modelled, one Dafny module per source component:

- `Normalize`, `Dedup`: name normalisation (`normalizeName`) and the
  first-match grouping of crawled records (`deduplicatePlaces`).
- `Geocode`, `ReverseGeocode`: the landmark table, the forward cascade
  landmark → Naver → Nominatim, and the reverse fallback to the nearest
  landmark.
- `PlaceCache`: the cache read filter and the upsert store, as a class
  holding the place table.
- `Places`, `PlaceMapper`, `PlacesRoute`, `AllPlacesRoute`, `RegionsRoute`:
  seed/crawled mapping, seed-wins merge, DiningCode ranking, region
  extraction and region grouping.
- `Aggregator`, `CrawlRoute`: the orchestration filters (geocode if missing,
  bounds filtering and relaxation, parking insert-if-absent, default
  `placeType`).
- `ParkingLots`: the parking-lot table shared by the agent and the scripts,
  as a class with insert-if-absent, create, delete and update.
- `ChatResolve`: `tokenMatch`, name resolution and course building of the
  chat-resolve route.
- `Recommender` (`llm.ts`) and `CourseRecommender` (`llm_service.py`): id
  compression and remapping, warning classification, keyword-fallback
  scoring and course assembly.
- `Classify`, `OpenRouter`: batch classification and persistence; fenced-JSON
  extraction and the chat-completion call.
- `ParkingAgent`, `ReimportParking`, `ImportYongsan`, `EnrichYongsan`,
  `CrawlMenus`, `FixCoordinates`: the parking agent and the maintenance
  scripts' filtering, de-duplication, merging and matching loops.
- Support modules: `Wrappers` (Option, JavaScript and Python truthiness,
  `??`/`||` defaults), `Text` (white space, trim, ASCII lowering, splitting,
  collapsing), `Patterns` (leftmost regular-expression scans of the form
  `R+E`), `Sorting` (stable descending insertion sort, string order), and
  `Crawl` (the crawled record).

External services become parameters:

- HTTP calls, the LLM, geocoders and the database are oracles: functions
  from request to outcome.
- Failures are explicit outcomes.
- Where the source short-circuits, ghost call counters record which oracles
  were consulted.

Regular expressions are explicit left-to-right scans, with lemmas that state
the match they find. The haversine distance is an uninterpreted function;
only its comparison with 200 m is used.

## Model

| member | source | states |
|---|---|---|
| Normalize.NormalizeName | src/lib/normalize.ts:9-15 | the normalised name has no leading or trailing white space, no run of two white-space characters, only plain spaces, no ASCII upper case, and is no longer than the input; in src/lib/agents/utils/dedup.ts:10-16, dedup.ts's copy of `normalizeName` is the same chain, so it is the same function; in docs/samples/agents/dedup.py:8-13, the Python `normalize_name` applies the same strip, lower, suffix removal and collapse |
| Normalize.FirstMatch | src/lib/normalize.ts:13 | the leftmost position where `\s*(본점\|지점\|점\|역점\|직영점)\s*$` matches: it matches there and at no earlier position; none when it matches nowhere |
| Normalize.StripBranchSuffix | src/lib/normalize.ts:13 | removing the leftmost match leaves a prefix of the string |
| Normalize.NormalizeIsRegexForm | src/lib/normalize.ts:10-14 | the name is collapse(regex-strip(lower(trim(name)))), the source's chain in order |
| Normalize.StripIsLongestSuffix | src/lib/normalize.ts:13 | on a string not ending in white space, the leftmost match is the longest branch suffix together with the white-space run before it |
| Normalize.NoMatchWithoutSuffix | src/lib/normalize.ts:13 | a string that ends in none of the five suffixes is left unchanged by the replace |
| Normalize.LeftmostMatch | src/lib/normalize.ts:13 | a matching position with no match before it is the one the replace removes from |
| Normalize.StripKeepsTrimmed | src/lib/normalize.ts:13 | removing the suffix from a trimmed string leaves it trimmed |
| Normalize.NormalizeClean | src/lib/normalize.ts:9-15 | on an already trimmed, lower-case, single-spaced name, normalisation only removes the suffix |
| Normalize.SuffixedExample | src/lib/normalize.ts:13 | "강남 파스타 본점" normalises to "강남 파스타" |
| Normalize.PlainExample | src/lib/normalize.ts:9-15 | "강남 파스타" is its own normal form |
| Normalize.BranchSuffixIgnored | src/lib/normalize.ts:3-4 | "강남 파스타 본점" and "강남 파스타" normalise to the same name |
| Normalize.CaseIgnored | src/lib/normalize.ts:12 | lowering the name first changes nothing |
| Normalize.TrimLower | src/lib/normalize.ts:11-12 | trimming and lowering commute |
| Normalize.EmptyName | src/lib/normalize.ts:9-15 | the empty name normalises to the empty name |
| Normalize.NotIdempotent | src/lib/normalize.ts:13 | "본점점" normalises to "본점", which normalises to "": normalisation is not idempotent |
| Dedup.SamePlaceByName | src/lib/agents/utils/dedup.ts:23-42 | different normalised names are never the same place; with coordinates on both sides the same place iff equal names and distance ≤ 200; otherwise iff equal names; in docs/samples/agents/dedup.py:16-30, `is_same_place` takes the same three branches |
| Dedup.IsSamePlaceSymmetric | src/lib/agents/utils/dedup.ts:23-42 | for a symmetric distance, `isSamePlace(a, b)` equals `isSamePlace(b, a)` |
| Dedup.StoredSource | docs/samples/agents/dedup.py:49 | the Python port stores a missing source as "", so its entries always hold a string |
| Dedup.EntryOf | src/lib/agents/utils/dedup.ts:66-72 | a source entry copies the record's source (as stored), sourceUrl, rating, reviewCount and snippet; the TypeScript entry carries no metadata; in docs/samples/agents/dedup.py:46-55, the Python entry copies the record's metadata |
| Dedup.Merge | src/lib/agents/utils/dedup.ts:62-81 | merging back-fills the group's place and either keeps the sources or appends exactly one entry; a source already listed adds nothing |
| Dedup.BackfillFills | src/lib/agents/utils/dedup.ts:76-81 | only lat, lng, address, category, rating and tags can change; each of the six takes the record's value exactly when the group's is falsy and the record's truthy, and keeps the group's value otherwise; afterwards a field is truthy iff it was truthy in the group or in the record; in docs/samples/agents/dedup.py:57-69, the Python back-fill uses the same falsy/truthy test on the same six fields |
| Dedup.FindGroup | src/lib/agents/utils/dedup.ts:58 | the index of the first group that is the same place as the record; no earlier group is; the length when none is |
| Dedup.FindGroupUnique | src/lib/agents/utils/dedup.ts:58 | any index with that first-match property is the one `find` returns |
| Dedup.FindSamePlace | docs/samples/agents/dedup.py:38-42 | the scan with `break` returns exactly the first matching group |
| Dedup.DeduplicatePlaces | src/lib/agents/utils/dedup.ts:54-99 | the loop's groups equal the fold of `AddPlace` over the records in order; in docs/samples/agents/dedup.py:33-85, the Python loop is the same fold, with the Python source rule |
| Dedup.DedupStep | src/lib/agents/utils/dedup.ts:57-96 | processing one more record applies one `AddPlace` step to the previous groups |
| Dedup.AddPlaceRecordsSource | src/lib/agents/utils/dedup.ts:57-95 | a record joins the first matching group or founds a new group at the end; that group then lists the record's source, and no other group changes |
| Dedup.AddPlaceKeepsNames | src/lib/agents/utils/dedup.ts:76-81 | a group's name never changes after creation, and the number of groups never shrinks |
| Dedup.DedupCount | src/lib/agents/utils/dedup.ts:83-94 | there are at most as many groups as records, and at least one for a non-empty input |
| Dedup.SourcesDistinct | src/lib/agents/utils/dedup.ts:62-74 | every group has at least one source entry and no two entries with the same source (TypeScript, and the Python port with its intended comparison) |
| Dedup.MergeKeepsDistinct | src/lib/agents/utils/dedup.ts:62-73 | merging keeps a group's sources distinct and non-empty |
| Dedup.MergeRecordsSource | src/lib/agents/utils/dedup.ts:62-73 | after merging, the group lists the record's source |
| Dedup.DedupStoredAsString | docs/samples/agents/dedup.py:46-55 | in the Python port every stored source is a string |
| Dedup.EveryRecordGrouped | src/lib/agents/utils/dedup.ts:57-95 | every record ends up in a group with its normalised name |
| Dedup.NamesDistinctWithoutCoordinates | src/lib/agents/utils/dedup.ts:40-41 | without coordinates, the groups have pairwise distinct normalised names and stay without coordinates |
| Dedup.AddPlaceKeepsKeysDistinct | src/lib/agents/utils/dedup.ts:57-95 | one step keeps the normalised names of coordinate-free groups distinct |
| Dedup.FirstRecordFounds | src/lib/agents/utils/dedup.ts:83-94 | a single record yields one group holding that record and its one source entry |
| Dedup.SecondRecordJoins | src/lib/agents/utils/dedup.ts:58-81 | a second record that is the same place merges into the first group |
| Dedup.TwoSourcesMerge | src/lib/agents/utils/dedup.ts:62-74 | two same-place records from different sources give one group named after the first, listing both sources in order |
| Dedup.BranchVariantsMerge | src/lib/agents/utils/dedup.ts:10-27 | "강남 파스타 본점" from naver and "강남 파스타" from kakao merge into one group with both sources |
| Dedup.PythonDuplicatesMissingSource | docs/samples/agents/dedup.py:46-55 | as written, two records without a source in one group give two "" entries |
| Geocode.KeyIndex | src/lib/geocode.ts:47 | the index of the first table entry whose key equals the query; none when no key does |
| Geocode.FirstOverlap | src/lib/geocode.ts:51-53 | the index of the first entry, in table order, whose key contains the query or is contained in it; none when none does |
| Geocode.ExactKeyHit | src/lib/geocode.ts:47 | an exact key returns that entry; in docs/samples/geocode.py:50-51, the Python lookup returns the exact entry first |
| Geocode.DigitGuard | src/lib/geocode.ts:49 | a query that is not a key and contains an ASCII digit finds no landmark; in docs/samples/geocode.py:53-54, the Python lookup guards on digits too (see Left out for non-ASCII digits) |
| Geocode.ContainmentScan | src/lib/geocode.ts:51-54 | otherwise a landmark is found iff some key overlaps the query, and it is the first overlapping entry; in docs/samples/geocode.py:55-58, the Python scan returns the first key with containment in either direction |
| Geocode.KeysNonEmpty | src/lib/geocode.ts:8-42 | every key of the landmark table has at least two characters |
| Geocode.EmptyQueryFirstEntry | src/lib/geocode.ts:51-53 | with non-empty keys, the empty query resolves to the table's first entry |
| Geocode.EmptyQueryYongsanGuOffice | src/lib/geocode.ts:9 | the empty query resolves to 용산구청 |
| Geocode.LandmarkShortCircuits | src/lib/geocode.ts:124-125 | on a landmark hit the result is the landmark and neither external tier is requested |
| Geocode.CascadeOrder | src/lib/geocode.ts:122-137 | Naver is requested iff the landmark missed and credentials exist; Nominatim iff both earlier tiers missed; the result is the first tier's answer, and none iff all three miss; in docs/samples/geocode.py:118-133, the Python cascade returns the first non-None tier in the same order |
| Geocode.NaverClientId | src/lib/geocode.ts:59 | TypeScript reads the client id from NEXT_PUBLIC_NAVER_MAP_CLIENT_ID only |
| Geocode.ClientIdFallback | docs/samples/geocode.py:63 | Python falls back to NAVER_MAP_CLIENT_ID: with only that id and a secret, Python has credentials and TypeScript has none |
| Geocode.NaverNeedsCredentials | src/lib/geocode.ts:62 | without client id or secret the Naver tier answers null and sends no request; in docs/samples/geocode.py:66-67, the Python tier likewise returns None with no request |
| Geocode.NaverAddressFallback | src/lib/geocode.ts:82-87 | a successful reply takes the first address's coordinates, and roadAddress, else jibunAddress, else the query as address; in docs/samples/geocode.py:85-90, the Python tier uses the same address fallback |
| Geocode.NominatimQuery | src/lib/geocode.ts:97 | the Nominatim search text is the query followed by " 서울" |
| Geocode.DisplayNameEmpty | src/lib/geocode.ts:114 | an empty display_name falls back to the query in TypeScript (`\|\|`) but stays "" in Python (`get` with a default) |
| Geocode.TierFailures | src/lib/geocode.ts:77-118 | an exception, a non-ok status, a missing or empty address list, or an empty Nominatim list yields null; in docs/samples/geocode.py:79-115, in Python a non-200 status, an empty answer or any exception yields None |
| Patterns.RunEnd | src/lib/reverse-geocode.ts:88 | the greedy run of a character class starting at i ends at the first character outside it |
| Patterns.MatchEnd | src/lib/reverse-geocode.ts:88 | a match of `R+E` tried at i ends on the last final character inside the greedy run, after at least one run character |
| Patterns.FirstMatch | src/lib/reverse-geocode.ts:88 | the leftmost match: it matches at its start and at no earlier position; none when nothing matches |
| Patterns.MatchShape | src/lib/reverse-geocode.ts:88 | a match is two or more run characters ending in a final character |
| Patterns.FirstMatchSkip | src/lib/reverse-geocode.ts:88 | positions where no match starts do not change the leftmost match |
| ReverseGeocode.FindNearestLandmark | src/lib/reverse-geocode.ts:67-93 | null for an empty table; otherwise, with non-empty keys, the entry at minimal squared distance, the earliest on ties, with its address's district as gu and its name as dong |
| ReverseGeocode.ExtractGuShape | src/lib/reverse-geocode.ts:88-89 | the district is "" or two or more Hangul syllables ending in 구 that occur in the address |
| ReverseGeocode.NoGuNoDistrict | src/lib/reverse-geocode.ts:88-89 | an address with no 구 after a Hangul syllable yields "" |
| ReverseGeocode.YongsanDistrict | src/lib/reverse-geocode.ts:88-89 | the district of "서울특별시 용산구 녹사평대로 150" is 용산구, not a longer run |
| ReverseGeocode.YongsanCityPart | src/lib/reverse-geocode.ts:88 | no match starts in "서울특별시" |
| ReverseGeocode.YongsanDistrictPart | src/lib/reverse-geocode.ts:88 | the match starting at 용 ends at 구 |
| ReverseGeocode.NaverAnswerNonEmpty | src/lib/reverse-geocode.ts:57-61 | a Naver answer never has both gu and dong empty |
| ReverseGeocode.NaverReverseFailures | src/lib/reverse-geocode.ts:31-64 | missing credentials, an exception, a non-ok status, no results or a missing region all yield null |
| ReverseGeocode.ReverseGeocodeArea | src/lib/reverse-geocode.ts:12-22 | a Naver answer is returned as is; otherwise the nearest-landmark fallback, which is never null for the application's table |
| PlaceCache.Selection | src/lib/agents/utils/place-cache.ts:12-28 | the query keeps a subsequence of the rows, never more rows than there are |
| PlaceCache.SelectionExact | src/lib/agents/utils/place-cache.ts:12-23 | a row is returned iff it was updated at or after now − maxAgeHours·3 600 000 ms, has both coordinates, and lies inside the bounds inclusively when bounds are given; in docs/samples/place_cache.py:13-27, the Python query applies the same age, coordinate and inclusive bounds filter |
| PlaceCache.DiningCodeIndex | docs/samples/place_cache.py:33 | the index of the first source row named "diningcode"; none before it is |
| PlaceCache.FindCachedPlaces | src/lib/agents/utils/place-cache.ts:8-44 | one projected record per selected row, in query order; in docs/samples/place_cache.py:11-51, the Python loop appends the same projections in the same order |
| PlaceCache.ProjectAll | src/lib/agents/utils/place-cache.ts:30-43 | the projection maps each selected row to its record, index by index |
| PlaceCache.ProjectFields | src/lib/agents/utils/place-cache.ts:30-43 | name, coordinates, address and tags are copied; without source rows the source is "cache" and the per-source fields are empty; TypeScript takes them from the first source row and has no metadata; in docs/samples/place_cache.py:33-48, Python prefers the diningcode row, else the first, and its metadata comes only from the diningcode row |
| PlaceCache.PlaceStore.SaveCrawledPlaces | src/lib/agents/utils/place-cache.ts:66-143 | the new table is the fold of `SaveOne` over the items, in order, and every place stays under its own name; in docs/samples/place_cache.py:54-135, the Python loop is the same fold, with truthy updates, `place_type` and per-place rollback |
| PlaceCache.UpsertRows | src/lib/agents/utils/place-cache.ts:91-115 | the source-row loop performs the upserts of the item's sources one after the other; in docs/samples/place_cache.py:80-104, the Python source loop updates an existing (place, source) row or adds a new one |
| PlaceCache.CreateRows | src/lib/agents/utils/place-cache.ts:118-137 | a nested create succeeds iff the sources have distinct names, and then holds one row per source; in docs/samples/place_cache.py:105-131, the Python create adds one row per source; a duplicate source fails at commit and is rolled back |
| PlaceCache.SaveOneFrame | src/lib/agents/utils/place-cache.ts:72-76 | saving a place touches only the entry with its exact name; the entry exists afterwards iff it existed or could be created; a saved entry is stamped with the current time; in docs/samples/place_cache.py:132-135, a failing place leaves the table as it was, and the loop goes on |
| PlaceCache.UpdateNeverErases | src/lib/agents/utils/place-cache.ts:78-88 | each field becomes the incoming value or stays as stored; a present value is never erased; TypeScript never changes the place type; in docs/samples/place_cache.py:63-78, Python replaces a field only with a truthy value, and sets `place_type` only when one is given |
| PlaceCache.EntryFor | src/lib/agents/utils/place-cache.ts:91-98 | the item's source entry with a given name, if any |
| PlaceCache.UpsertAt | src/lib/agents/utils/place-cache.ts:91-115 | after the upserts, a source row is the updated (or created) row when the item lists that source, and untouched otherwise |
| PlaceCache.UpsertSourcesEffect | src/lib/agents/utils/place-cache.ts:91-115 | the rows afterwards are the old rows plus one per listed source; unlisted rows are unchanged; every listed row is stamped now; Python rows hold exactly the incoming values; in docs/samples/place_cache.py:81-104, no (place, source) pair is stored twice |
| PlaceCache.TsRowsKeepMetadata | src/lib/agents/utils/place-cache.ts:99-113 | TypeScript source upserts never write metadata |
| PlaceCache.TsNeverWritesType | src/lib/agents/utils/place-cache.ts:46-61 | TypeScript saving never writes a place type, and no place disappears |
| PlaceCache.TsNeverWritesMetadata | src/lib/agents/utils/place-cache.ts:118-136 | TypeScript saving never writes source metadata, and no source row disappears |
| PlaceCache.SavedAreFresh | src/lib/agents/utils/place-cache.ts:66-143 | every saved place is stamped with the current time |
| PlaceCache.RowsIdem | src/lib/agents/utils/place-cache.ts:91-115 | upserting the same distinct sources twice equals upserting them once |
| PlaceCache.PlaceIdem | src/lib/agents/utils/place-cache.ts:78-115 | updating a place twice with the same item equals updating it once |
| PlaceCache.CreateIdem | src/lib/agents/utils/place-cache.ts:116-137 | updating a freshly created place with the same item changes nothing |
| PlaceCache.SaveAllAt | src/lib/agents/utils/place-cache.ts:69-142 | the entry under a name after saving depends only on its entry before and the items with that name |
| PlaceCache.StepsTwice | src/lib/agents/utils/place-cache.ts:69-142 | per name, running the items twice equals running them once |
| PlaceCache.SaveTwice | src/lib/agents/utils/place-cache.ts:66-143 | saving the same list of distinct names twice at the same time leaves the same table as saving it once |
| PlaceCache.SaveTwiceLater | src/lib/agents/utils/place-cache.ts:66-143 | saving the list again later leaves the same places and source rows, up to timestamps; in docs/samples/place_cache.py:54-135, the same holds for the Python save |
| PlaceCache.SaveClock | src/lib/agents/utils/place-cache.ts:66-143 | the clock affects only the timestamps of the saved table |
| Places.TypeLabel | src/types/place.ts:1-9 | the type of a place is one of the five labels, and "parking" exactly for parking lots |
| Places.UnseenMembers | src/lib/place-mapper.ts:208-211 | a crawled place survives the filter exactly when its lower-cased name is not a lower-cased seed name |
| Places.UnseenAppend | src/lib/place-mapper.ts:209-211 | the filter works element by element, so it distributes over concatenation |
| Places.MergeSeedFirst | src/lib/place-mapper.ts:204-213 | the merged list starts with the seed places unchanged and is at most as long as both lists together |
| Places.MergeSeedFirstMembers | src/lib/place-mapper.ts:204-213 | every seed place is kept; a crawled place is kept exactly when no seed place has its name up to case; nothing else appears; in docs/samples/place_mapper.py:143-147, the Python merge is the same |
| Places.CrawledDuplicatesKept | src/lib/place-mapper.ts:209-211 | two crawled places with the same new name are both kept: only seed names are filtered |
| PlaceMapper.MapSeedPlaces | src/lib/place-mapper.ts:77-112 | one place per seed row |
| PlaceMapper.SeedPlacesAt | src/lib/place-mapper.ts:83-92 | the i-th mapped seed place is the i-th seed row as a place |
| PlaceMapper.LotPlacesAt | src/lib/place-mapper.ts:93-110 | the i-th mapped parking place is the i-th seed lot as a place |
| PlaceMapper.MapSeedLayout | src/lib/place-mapper.ts:77-112 | restaurants first, then cafés, then parking lots, each keeping its id, name and kind; seed places carry no rank; in docs/samples/place_mapper.py:7-67, the Python mapping has the same layout but sends no tags |
| PlaceMapper.WithCoordinates | src/lib/place-mapper.ts:118-120 | the kept rows all have both coordinates |
| PlaceMapper.MapCrawled | src/lib/place-mapper.ts:114-168 | one place per crawled row with coordinates |
| PlaceMapper.WithCoordinatesFilter | docs/samples/place_mapper.py:77-78 | rows without a coordinate are skipped, the rest kept in order; the filter distributes over concatenation |
| PlaceMapper.CrawledKind | src/lib/place-mapper.ts:121-166 | the stored type wins, then the classifier's answer, else restaurant; the category falls back to the kind's default; a crawled place has no rank yet; in docs/samples/place_mapper.py:80-110, the Python mapping chooses the kind the same way |
| PlaceMapper.UnknownTypeIsRestaurant | src/lib/place-mapper.ts:141-166 | any type name other than cafe, bar or bakery maps to a restaurant |
| PlaceMapper.CrawledRating | src/lib/place-mapper.ts:134-135 | TypeScript always sends a rating, 0 when the first source has none; in docs/samples/place_mapper.py:92-93, Python sends the first source's rating as it is, none when it has none, 0 without any source |
| PlaceMapper.ScoresUpTo | src/lib/place-mapper.ts:178-195 | at most one score per paired place |
| PlaceMapper.ScoresAscending | src/lib/place-mapper.ts:178-195 | scores are collected in position order, each for a paired position |
| PlaceMapper.ScoresMembers | src/lib/place-mapper.ts:178-195 | a position is scored with v exactly when its row's DiningCode metadata yields v; in docs/samples/place_mapper.py:117-135, the Python pairing stops at the shorter list the same way |
| PlaceMapper.Insert | src/lib/place-mapper.ts:196 | inserting adds one element |
| PlaceMapper.SortByScore | src/lib/place-mapper.ts:196 | sorting keeps the length |
| PlaceMapper.InsertMultiset | src/lib/place-mapper.ts:196 | inserting adds exactly the one element |
| PlaceMapper.InsertRanked | src/lib/place-mapper.ts:196 | inserting a later position into a ranking keeps it a ranking, ties in position order |
| PlaceMapper.SortPermutes | src/lib/place-mapper.ts:196 | the sort is a permutation |
| PlaceMapper.SortMembers | src/lib/place-mapper.ts:196 | every sorted element comes from the input |
| PlaceMapper.SortRanked | src/lib/place-mapper.ts:196 | sorting positions in order yields descending scores, equal scores in their original order (a stable sort); in docs/samples/place_mapper.py:136, Python's stable reverse sort gives the same order |
| PlaceMapper.SortedScores | src/lib/place-mapper.ts:196 | the sorted list is a ranking with exactly the input's elements |
| PlaceMapper.PlaceOf | src/lib/place-mapper.ts:197-201 | the index found holds the position, and none is found only when the position is absent |
| PlaceMapper.PlaceOfMember | src/lib/place-mapper.ts:197-201 | a position is found exactly when it is in the order with some score |
| PlaceMapper.RankOrderRanked | src/lib/place-mapper.ts:178-196 | the ranking order is a ranking |
| PlaceMapper.RankOrderMembers | src/lib/place-mapper.ts:178-196 | the order holds exactly the positions below both list lengths whose row yields a score, with that score |
| PlaceMapper.InOrder | src/lib/place-mapper.ts:178-196 | every scored position among the places is in the order |
| PlaceMapper.OrderScore | src/lib/place-mapper.ts:178-196 | each entry of the order carries the score of its position |
| PlaceMapper.OrderShort | src/lib/place-mapper.ts:178-195 | the order is no longer than the places |
| PlaceMapper.AssignRanks | src/lib/place-mapper.ts:197-201 | in place, each dining place in the order gets its index in the order plus one as its rank |
| PlaceMapper.ApplyOrder | src/lib/place-mapper.ts:197-201 | ranking keeps the number of places |
| PlaceMapper.RankPlaces | src/lib/place-mapper.ts:170-202 | ranking keeps the number of places |
| PlaceMapper.RankLeavesUnscored | src/lib/place-mapper.ts:197-201 | ranking changes no id, name or kind; parking lots and unscored places are unchanged |
| PlaceMapper.RankGiven | src/lib/place-mapper.ts:197-201 | every scored dining place gets a rank between 1 and the number of places |
| PlaceMapper.RanksFollowScores | src/lib/place-mapper.ts:170-202 | ranks are distinct, and a higher score means a smaller rank; in docs/samples/place_mapper.py:117-140, the Python ranking has the same properties |
| PlaceMapper.RankByDiningCode | src/lib/place-mapper.ts:170-202 | in place, the places become the ranked places of their old contents |
| PlaceMapper.TokenShape | src/lib/place-mapper.ts:226 | a matched district token has two or more characters, no white space, and ends in its class |
| PlaceMapper.SeoulDistrictShape | src/lib/place-mapper.ts:225-228 | a Seoul district ends in 구 or 군 and has no white space |
| PlaceMapper.MetroNonEmpty | src/lib/place-mapper.ts:231-235 | a metro match is never empty |
| PlaceMapper.ProvinceNonEmpty | src/lib/place-mapper.ts:238-245 | a province match is never empty |
| PlaceMapper.RegionNonEmpty | src/lib/place-mapper.ts:221-252 | the region of any address is never empty; in docs/samples/place_mapper.py:150-178, the same holds for the Python function |
| PlaceMapper.RegionOfNothing | src/lib/place-mapper.ts:222 | a missing or empty address is "기타" |
| PlaceMapper.RegionSeoul | src/lib/place-mapper.ts:217 | "서울특별시 강남구 테헤란로 152" is "강남구" |
| PlaceMapper.NotSeoul | src/lib/place-mapper.ts:225-227 | an address not starting with 서 has no Seoul district |
| PlaceMapper.DaeguDistrict | src/lib/place-mapper.ts:231-233 | 서구 is the district after 대구광역시 in the Daegu example |
| PlaceMapper.MetroFirst | src/lib/place-mapper.ts:231-235 | a match for the first city is reported as "city district" |
| PlaceMapper.RegionMetro | src/lib/place-mapper.ts:218 | "대구광역시 서구 국채보상로 257" is "대구 서구" |
| PlaceMapper.RegionProvince | src/lib/place-mapper.ts:219 | "경상북도" alone is "경상북도" |
| PlaceMapper.GyeongbukNotMetro | src/lib/place-mapper.ts:231-233 | "경상북도" matches no metro city |
| PlaceMapper.GyeongbukProvince | src/lib/place-mapper.ts:238-245 | "경상북도" matches its province with no city |
| PlaceMapper.MetroNone | src/lib/place-mapper.ts:231-233 | an address whose first character starts no city name has no metro match |
| PlaceMapper.ProvinceNone | src/lib/place-mapper.ts:238-240 | an address whose first character starts no province name has no province match |
| PlaceMapper.YongsanNoPrefix | src/lib/place-mapper.ts:224-245 | "용산구 이태원동" matches none of the anchored patterns |
| PlaceMapper.YongsanToken | src/lib/place-mapper.ts:248 | the unanchored search finds "용산구" in it |
| PlaceMapper.RegionFallback | src/lib/place-mapper.ts:247-249 | so its region is "용산구" |
| PlacesRoute.RoutePlaces | src/app/api/places/route.ts:78-119 | one café or restaurant per crawled row with coordinates |
| PlacesRoute.GetPlaces | src/app/api/places/route.ts:5-150 | 400 exactly when all four bounds are 0 or not numbers; otherwise the seed places followed by the ranked crawled places whose name no seed place has |
| PlacesRoute.RoutePlaceKind | src/app/api/places/route.ts:70-118 | a crawled place is a café exactly when `isCafe` holds, else a restaurant, with the café or restaurant default category; it keeps its id and has no rank before ranking |
| PlacesRoute.AbsentFirst | src/app/api/places/route.ts:67-68 | a word whose first character is absent from the text does not occur in it |
| PlacesRoute.CafeByName | src/app/api/places/route.ts:67-71 | a name mentioning COFFEE in capitals is a café: the pattern ignores case |
| PlacesRoute.CategoryNotCafeWord | src/app/api/places/route.ts:72 | "coffee" in the category does not make a café: the category is matched against the second pattern only |
| AllPlacesRoute.CrawledAddresses | src/app/api/places/all/route.ts:38-42 | the crawled rows in order, by id and address |
| AllPlacesRoute.LotAddresses | src/app/api/places/all/route.ts:44-48 | the parking lots in order, by id and address |
| AllPlacesRoute.RecordedKeys | src/app/api/places/all/route.ts:37-48 | an id is in the address map exactly when some entry with that id has a non-empty address |
| AllPlacesRoute.RecordedLast | src/app/api/places/all/route.ts:37-48 | the map holds the address of the last entry that sets an id |
| AllPlacesRoute.RecordedSnoc | src/app/api/places/all/route.ts:39-41 | one more entry sets its id exactly when its address is non-empty |
| AllPlacesRoute.BuildAddressMap | src/app/api/places/all/route.ts:36-48 | the two loops build the map of the crawled entries followed by the parking entries |
| AllPlacesRoute.AddressPrecedence | src/app/api/places/all/route.ts:36-48 | a parking lot's address wins over a crawled place's with the same id; otherwise the last non-empty address of an id is kept |
| AllPlacesRoute.KeepRanked | src/app/api/places/all/route.ts:31-33 | the filter keeps at most every place |
| AllPlacesRoute.KeepRankedMembers | src/app/api/places/all/route.ts:31-33 | a place is kept exactly when it is a parking lot or has a rank |
| AllPlacesRoute.CollectRegions | src/app/api/places/all/route.ts:56-63 | the regions are sorted, and a region is listed exactly when it is not "기타" and some place has it |
| AllPlacesRoute.GetAllPlaces | src/app/api/places/all/route.ts:14-70 | each listed place is the seed-first merge of seed and ranked crawled places, with the region of its mapped address; the regions are the distinct non-"기타" regions, sorted; the total is the number of places |
| AllPlacesRoute.ListedCrawledRanked | src/app/api/places/all/route.ts:30-34 | every crawled place listed after the seed places has a rank |
| RegionsRoute.Tags | src/app/api/regions/route.ts:26-27 | each row paired with its region |
| RegionsRoute.RegionsOf | src/app/api/regions/route.ts:27 | the region of every row, in order |
| RegionsRoute.NamesDistinct | src/app/api/regions/route.ts:21-34 | each region is listed once |
| RegionsRoute.NamesMembers | src/app/api/regions/route.ts:26-34 | a region is listed exactly when some counted row has it, exactly when its count is positive |
| RegionsRoute.TotalCount | src/app/api/regions/route.ts:28-33 | a region's count is the number of rows with that region |
| RegionsRoute.TallyStep | src/app/api/regions/route.ts:26-34 | one loop step keeps the map equal to the running totals, adding a key the first time its region is counted |
| RegionsRoute.TallyNext | src/app/api/regions/route.ts:26-34 | the same step in terms of the loop index |
| RegionsRoute.Accumulate | src/app/api/regions/route.ts:21-34 | after the loop, the keys and sums are the totals of the counted rows, in first-seen order |
| RegionsRoute.Item | src/app/api/regions/route.ts:39-44 | an item's coordinates times its count are the sums: the centroid |
| RegionsRoute.DbItems | src/app/api/regions/route.ts:37-44 | one item per region, in first-seen order, with its count |
| RegionsRoute.NamesPositive | src/app/api/regions/route.ts:37-44 | every listed region has a positive count, so the division is defined |
| RegionsRoute.LandmarkItems | src/app/api/regions/route.ts:48-55 | at most one item per landmark |
| RegionsRoute.LandmarkItemsMeaning | src/app/api/regions/route.ts:46-55 | a landmark is listed exactly when its name is not a database region, with count 0 |
| RegionsRoute.GetRegions | src/app/api/regions/route.ts:13-58 | the response is the database regions by descending count followed by the remaining landmarks |
| RegionsRoute.DbItemMeaning | src/app/api/regions/route.ts:28-44 | each database item is a real region, counted once per row with it, at its centroid |
| RegionsRoute.DbSorted | src/app/api/regions/route.ts:37-38 | database items are in descending count and are exactly the unsorted items |
| RegionsRoute.DbNamesDistinct | src/app/api/regions/route.ts:37-44 | no region appears twice |
| RegionsRoute.DbNamesComplete | src/app/api/regions/route.ts:26-44 | a region is listed exactly when some counted row has it |
| RegionsRoute.ResponseShape | src/app/api/regions/route.ts:46-57 | database items first, then only count-0 landmarks not among them, and every such landmark |
| RegionsRoute.TiesKeepFirstSeen | src/app/api/regions/route.ts:37-38 | regions with equal counts keep their first-seen order (a stable sort) |
| Sorting.WithKey | src/app/api/regions/route.ts:37-38 | selecting by key keeps at most every element |
| Sorting.InsertDesc | src/app/api/regions/route.ts:38 | inserting adds one element |
| Sorting.SortDesc | src/app/api/regions/route.ts:38 | sorting keeps the length |
| Sorting.InsertDescPermutes | src/app/api/regions/route.ts:38 | inserting adds exactly the one element |
| Sorting.SortDescPermutes | src/app/api/regions/route.ts:38 | the sort is a permutation |
| Sorting.InsertDescSorted | src/app/api/regions/route.ts:38 | inserting into a descending list keeps it descending |
| Sorting.SortDescSorted | src/app/api/regions/route.ts:38 | the sort is descending |
| Sorting.WithKeyAppend | src/app/api/regions/route.ts:38 | selecting by key distributes over concatenation |
| Sorting.WithKeyNone | src/app/api/regions/route.ts:38 | nothing is selected when every key is smaller |
| Sorting.InsertDescStable | src/app/api/regions/route.ts:38 | inserting puts the new element after the equal-key ones |
| Sorting.SortDescStable | src/app/api/regions/route.ts:38 | the sort is stable: equal-key elements keep their order |
| Sorting.DescendingTail | src/app/api/regions/route.ts:38 | the tail of a descending list is descending and bounded by the head |
| Sorting.FilterDescending | src/lib/llm.ts:210-212 | filtering a descending list keeps it descending |
| Sorting.StrLessIrreflexive | src/app/api/places/all/route.ts:63 | the string order is irreflexive |
| Sorting.StrLessTransitive | src/app/api/places/all/route.ts:63 | the string order is transitive |
| Sorting.StrLessTotal | src/app/api/places/all/route.ts:63 | the string order is total on distinct strings |
| Sorting.InsertStr | src/app/api/places/all/route.ts:63 | inserting adds one string |
| Sorting.SortStrings | src/app/api/places/all/route.ts:63 | sorting keeps the length |
| Sorting.InsertStrPermutes | src/app/api/places/all/route.ts:63 | inserting adds exactly the one string |
| Sorting.SortStringsPermutes | src/app/api/places/all/route.ts:63 | the sort is a permutation |
| Sorting.InsertStrAscending | src/app/api/places/all/route.ts:63 | inserting a new string into an ascending list keeps it ascending |
| Sorting.SortStringsAscending | src/app/api/places/all/route.ts:63 | distinct strings sort into strictly ascending order |
| Aggregator.GeocodeQuery | src/lib/agents/nodes/aggregator.ts:24-27 | no query for a place with both coordinates or without a name; otherwise its address, or the search terms and its name |
| Aggregator.GeocodedMeaning | src/lib/agents/nodes/aggregator.ts:22-34 | geocoding keeps the name and sources; a located or nameless place is unchanged; a hit sets both coordinates and keeps an existing address before the geocoder's |
| Aggregator.GeocodeAll | src/lib/agents/nodes/aggregator.ts:22-34 | every place is geocoded on its own, in order |
| Aggregator.InBounds | src/lib/agents/nodes/aggregator.ts:37-47 | the filter keeps at most every place |
| Aggregator.InBoundsMeaning | src/lib/agents/nodes/aggregator.ts:37-47 | a place is kept exactly when it has both coordinates and lies in the bounds when there are bounds |
| Aggregator.NoRelaxation | src/lib/agents/nodes/aggregator.ts:37-46 | unlike the crawl route, the node does not fall back to all places when none is in bounds |
| Aggregator.Underscored | src/lib/agents/nodes/aggregator.ts:97 | replacing white-space runs by underscores leaves no white space and never lengthens the name |
| Aggregator.CrawledId | src/lib/agents/nodes/aggregator.ts:97 | every crawled id starts with "crawled_" |
| Aggregator.AsRestaurant | src/lib/agents/nodes/aggregator.ts:94-111 | a kept place becomes an unranked restaurant with its name and coordinates |
| Aggregator.ById | src/lib/agents/nodes/aggregator.ts:136-138 | an id resolves to a place with that id, and fails exactly when no place has it; the place found is the last one in the pool with that id, as a map built from the pool keeps it |
| Aggregator.Resolve | src/lib/agents/nodes/aggregator.ts:137-139 | no more places than recommended ids |
| Aggregator.ResolveOrder | src/lib/agents/nodes/aggregator.ts:137-139 | resolution keeps the recommender's order, id by id |
| Aggregator.ResolveMembers | src/lib/agents/nodes/aggregator.ts:137-139 | every resolved place is a listed place whose id was recommended |
| Aggregator.Pool | src/lib/agents/nodes/aggregator.ts:70-118 | the pool of seed places followed by the crawled places not named like a seed place is empty exactly when there are no seed places and no crawled place in bounds |
| Aggregator.Aggregate | src/lib/agents/nodes/aggregator.ts:9-148 | no places exactly when there are no seed places and no place in bounds; otherwise the ids are the recommender's answer on the pool and the places are those ids resolved against the pool in order, unknown ids dropped, so there are at most as many places as ids and each has a recommended id |
| CrawlRoute.ValidLots | src/app/api/places/crawl/route.ts:77-84 | an entry is kept exactly when it is named and inside the Seoul ranges, in order |
| CrawlRoute.ParkingFound | src/app/api/places/crawl/route.ts:72-88 | no lots without an answer; otherwise exactly the valid entries of the answer |
| CrawlRoute.Candidate | src/app/api/places/crawl/route.ts:99-111 | the created lot has the trimmed name and the coordinates, and defaults for a missing type, capacity, rate and hours |
| CrawlRoute.Cands | src/app/api/places/crawl/route.ts:93-111 | one candidate per lot, in order |
| CrawlRoute.SaveParkingLots | src/app/api/places/crawl/route.ts:91-115 | rows are appended for exactly the admitted candidates, and the count returned is their number |
| CrawlRoute.SavedLotsMeaning | src/app/api/places/crawl/route.ts:93-97 | no created lot reuses a stored name or another created lot's name, and afterwards every lot's trimmed name is stored |
| CrawlRoute.Pending | src/app/api/places/crawl/route.ts:170 | the places to geocode are at most all places |
| CrawlRoute.PendingMeaning | src/app/api/places/crawl/route.ts:170 | a place is pending exactly when it lacks a coordinate and has a name |
| CrawlRoute.PendingStep | src/app/api/places/crawl/route.ts:170 | the pending places of one more place |
| CrawlRoute.PendingPrefix | src/app/api/places/crawl/route.ts:170-171 | a prefix has no more pending places than the whole list |
| CrawlRoute.ProgressNext | src/app/api/places/crawl/route.ts:176-180 | the counter counts the geocoder calls so far and never passes the total |
| CrawlRoute.GeocodedNext | src/app/api/places/crawl/route.ts:174-199 | one more geocoded place extends the geocoded prefix |
| CrawlRoute.NeedsGeocodeIsQueried | src/app/api/places/crawl/route.ts:170-178 | the pending filter agrees exactly with the places the geocoder is called for |
| CrawlRoute.GeocodeOne | src/app/api/places/crawl/route.ts:175-198 | one place is geocoded as the aggregator does it, and the geocoder is called exactly for a pending place |
| CrawlRoute.GeocodeWithProgress | src/app/api/places/crawl/route.ts:169-199 | all places geocoded as the aggregator does; the progress ends at the total and reports 1, 2, … up to it |
| CrawlRoute.Coordinated | src/app/api/places/crawl/route.ts:201 | the located places are at most all places |
| CrawlRoute.Narrowed | src/app/api/places/crawl/route.ts:203-214 | the results are either unchanged or the in-bounds places |
| CrawlRoute.NarrowedMeaning | src/app/api/places/crawl/route.ts:201-214 | narrowing never empties the results, keeps every in-bounds place, and only narrows for bounds with both latitudes set |
| CrawlRoute.RouteRelaxesBounds | src/app/api/places/crawl/route.ts:211-213 | when no place is in bounds, the route keeps all located places |
| CrawlRoute.CrawlResultsCoordinated | src/app/api/places/crawl/route.ts:167-214 | every result has both coordinates, and there are no more results than merged places |
| CrawlRoute.WithTypes | src/app/api/places/crawl/route.ts:221-224 | each result gets the classifier's non-empty type, else "restaurant" |
| CrawlRoute.SaveItemOf | src/app/api/places/crawl/route.ts:221-229 | the saved item keeps the name, its sources and the chosen type |
| CrawlRoute.SaveItems | src/app/api/places/crawl/route.ts:228-229 | one saved item per typed result |
| CrawlRoute.TypeNotStored | src/app/api/places/crawl/route.ts:220-229 | the type attached by the route is not persisted: every stored type is what it was before |
| CrawlRoute.PostCrawl | src/app/api/places/crawl/route.ts:119-261 | 400 exactly for a missing or blank keyword, which changes nothing; otherwise the new parking rows and count, the number of results, and the place table after saving the typed results |
| ParkingLots.ReplaceId | scripts/enrich-yongsan-parking.ts:129-143 | updating by id replaces exactly the rows with that id |
| ParkingLots.Stored | src/app/api/places/crawl/route.ts:99-111 | a created row gets the next id and the candidate's name and coordinates |
| ParkingLots.StoredFrom | src/app/api/places/crawl/route.ts:93-113 | created rows get consecutive ids, in order |
| ParkingLots.NewNames | src/app/api/places/crawl/route.ts:93-113 | the names of the candidates, in order |
| ParkingLots.AdmitStep | src/app/api/places/crawl/route.ts:93-97 | one more candidate is created exactly when it is valid and its name is neither stored nor created before |
| ParkingLots.AdmitMeaning | src/app/api/places/crawl/route.ts:93-113 | at most one creation per candidate, none under a stored name, no two under one name, each from a candidate |
| ParkingLots.AdmitCovers | src/app/api/places/crawl/route.ts:93-113 | every valid candidate's name is stored before or created |
| ParkingLots.AdmitNone | src/app/api/places/crawl/route.ts:94-97 | nothing is created when every candidate's name is already stored |
| ParkingLots.HasNameStored | src/app/api/places/crawl/route.ts:94-111 | after creation a name is stored exactly when it was before or was created |
| ParkingLots.StoredFromSnoc | src/app/api/places/crawl/route.ts:99-112 | creating one more row extends the created rows |
| ParkingLots.InsertSkip | src/app/api/places/crawl/route.ts:94-97 | a candidate whose name the table now holds is skipped |
| ParkingLots.InsertCreate | src/app/api/places/crawl/route.ts:99-112 | a candidate whose name the table does not hold is created |
| ParkingLots.InsertNext | src/app/api/places/crawl/route.ts:93-113 | one loop step keeps the table equal to the rows before plus the admitted candidates so far |
| ParkingLots.ParkingTable.Names | src/app/api/places/crawl/route.ts:94-96 | the names stored in the table |
| ParkingLots.ParkingTable.FindFirst | src/app/api/places/crawl/route.ts:94-96 | a row is found exactly when one with that name is stored, and it is such a row |
| ParkingLots.ParkingTable.Create | src/app/api/places/crawl/route.ts:99-111 | one row is appended with the next id |
| ParkingLots.ParkingTable.InsertAbsent | src/app/api/places/crawl/route.ts:91-115 | the table gains exactly the admitted candidates, and the count returned is their number |
| ParkingLots.ParkingTable.DeleteMany | scripts/reimport-parking.ts:117 | the table is emptied and the number of deleted rows returned |
| ParkingLots.ParkingTable.UpdateById | scripts/enrich-yongsan-parking.ts:129-143 | the row with the given id is replaced, nothing else changes |
| ReimportParking.Batches | scripts/reimport-parking.ts:122-124 | every batch holds one to five districts |
| ReimportParking.BatchesCover | scripts/reimport-parking.ts:122-132 | the batches are the districts in order, each once |
| ReimportParking.FiveRequests | scripts/reimport-parking.ts:24-30 | the 25 districts make five requests of five |
| ReimportParking.CollectedStep | scripts/reimport-parking.ts:123-126 | one more batch appends its answer, an empty one for no content or bad JSON, and a thrown request aborts |
| ReimportParking.CollectedPrefix | scripts/reimport-parking.ts:184-187 | once a request has thrown, nothing later is collected |
| ReimportParking.BatchesStep | scripts/reimport-parking.ts:123-124 | the batch at i is the next batch of the remaining districts |
| ReimportParking.CollectNext | scripts/reimport-parking.ts:122-132 | one loop step keeps the collected answers equal to those of the batches requested so far |
| ReimportParking.CollectParking | scripts/reimport-parking.ts:120-132 | the loop collects the answers of all batches in order, or aborts when one throws |
| ReimportParking.Candidate | scripts/reimport-parking.ts:141-171 | an entry is stored exactly when it has a name, both coordinates and lies in Seoul, under its trimmed name with defaults for missing type and hours |
| ReimportParking.Candidates | scripts/reimport-parking.ts:140-174 | one candidate per collected entry, in order |
| ReimportParking.SeenMeaning | scripts/reimport-parking.ts:138-158 | the seen set holds exactly the names created so far |
| ReimportParking.InsertNext | scripts/reimport-parking.ts:140-174 | one loop step keeps the table, the seen set and the counts in step with the admitted candidates |
| ReimportParking.InsertUnseen | scripts/reimport-parking.ts:136-174 | the table gains exactly the first entry of each valid name, and inserted plus skipped is the number of entries |
| ReimportParking.Reimport | scripts/reimport-parking.ts:115-187 | every old row is deleted; a thrown request leaves the table empty; otherwise the table is exactly the admitted entries and the counts add up |
| ReimportParking.ReimportedLots | scripts/reimport-parking.ts:140-174 | stored lots lie in Seoul, have trimmed names and distinct names |
| ImportYongsan.Describe | scripts/import-yongsan-parking.ts:130 | every description starts with "용산구 " |
| ImportYongsan.Candidate | scripts/import-yongsan-parking.ts:105-133 | an entry is stored exactly when it has a name and both coordinates, under its untrimmed name, without an address, with a description naming 용산구 and "공영" for a missing type |
| ImportYongsan.Candidates | scripts/import-yongsan-parking.ts:104-137 | one candidate per entry, in order |
| ImportYongsan.ImportLots | scripts/import-yongsan-parking.ts:40-158 | no content or bad JSON changes nothing; otherwise the table gains exactly the candidates whose name is neither stored nor created before, and inserted plus skipped is the number of entries |
| ImportYongsan.YongsanCount | scripts/import-yongsan-parking.ts:142-153 | the count is at most the number of rows |
| ImportYongsan.YongsanCountAppend | scripts/import-yongsan-parking.ts:142-153 | appending related rows raises the count by their number |
| ImportYongsan.ImportedAreCounted | scripts/import-yongsan-parking.ts:122-153 | every imported lot is counted as related to 용산구 |
| ImportYongsan.ImportTwice | scripts/import-yongsan-parking.ts:111-120 | importing the same answer again creates nothing |
| EnrichYongsan.Targets | scripts/enrich-yongsan-parking.ts:44-49 | the targets are exactly the rows of type 공영 whose description mentions 용산구 |
| EnrichYongsan.MatchIndex | scripts/enrich-yongsan-parking.ts:117-122 | the first target whose name equals, contains or is contained in the entry's name with white space removed; none only when no target matches |
| EnrichYongsan.Enriched | scripts/enrich-yongsan-parking.ts:129-143 | the update keeps id, name, type and coordinates, takes the entry's address and free note or clears them, keeps capacity and rate unless the entry's are positive, and always sets the fare fields |
| EnrichYongsan.EnrichSpec | scripts/enrich-yongsan-parking.ts:115-154 | the table keeps its length and ids |
| EnrichYongsan.Matched | scripts/enrich-yongsan-parking.ts:113-154 | at most one update per entry |
| EnrichYongsan.EnrichNext | scripts/enrich-yongsan-parking.ts:115-154 | one loop step keeps the table and the count in step with the entries so far |
| EnrichYongsan.UpdateOne | scripts/enrich-yongsan-parking.ts:117-143 | a matched entry rewrites its target's row by id; an unmatched one changes nothing |
| EnrichYongsan.EnrichStep | scripts/enrich-yongsan-parking.ts:115-154 | one entry advances the table and count as the specification says |
| EnrichYongsan.UpdateMatches | scripts/enrich-yongsan-parking.ts:113-156 | the loop leaves the specified table and the number of matched entries |
| EnrichYongsan.TargetNames | scripts/enrich-yongsan-parking.ts:53 | the target names, in order |
| EnrichYongsan.Enrich | scripts/enrich-yongsan-parking.ts:42-157 | no content or bad JSON changes nothing; otherwise the table is the specified one and the count is the number of matched entries |
| EnrichYongsan.FrameStep | scripts/enrich-yongsan-parking.ts:129-130 | one update rewrites only the row with the target's id |
| EnrichYongsan.EnrichFrame | scripts/enrich-yongsan-parking.ts:115-154 | every row is rewritten only in its enriched fields, and rows that are not targets are unchanged |
| EnrichYongsan.OnlyTargetsChange | scripts/enrich-yongsan-parking.ts:44-49 | rows that are not 용산구 public lots are never changed |
| EnrichYongsan.BlankNameMatchesFirst | scripts/enrich-yongsan-parking.ts:120 | an entry whose name is all white space matches the first target, since every name contains the empty string |
| EnrichYongsan.LaterEntryWins | scripts/enrich-yongsan-parking.ts:115-143 | of two entries matching the same target, the later one's update is what remains |
| EnrichYongsan.ImportedDefaultsAreTargets | scripts/import-yongsan-parking.ts:125-130 | a lot imported without a type is a target of the enrichment |
| CrawlMenus.ByRank | scripts/crawl-menus.ts:67 | sorting by rank keeps the number of entries |
| CrawlMenus.ByRankMeaning | scripts/crawl-menus.ts:67 | sorting by rank is a permutation into ascending rank, stable for equal ranks |
| CrawlMenus.Names | scripts/crawl-menus.ts:65 | the menu names, in order |
| CrawlMenus.BestMenus | scripts/crawl-menus.ts:63 | exactly the entries marked best, none when no entry is |
| CrawlMenus.GenerateTags | scripts/crawl-menus.ts:62-72 | no tags exactly when there are no entries |
| CrawlMenus.PrefixRanksFirst | scripts/crawl-menus.ts:67 | in a rank-sorted list, every entry of a prefix ranks no later than every entry after it |
| CrawlMenus.SplitMultiset | scripts/crawl-menus.ts:67 | a prefix and the rest make up the whole list |
| CrawlMenus.LowestFirst | scripts/crawl-menus.ts:67 | the first n after sorting are entries of the list whose ranks are no later than any entry left out |
| CrawlMenus.TagsMeaning | scripts/crawl-menus.ts:62-72 | with a best entry, the tags are the best menus joined by ", "; otherwise the three lowest-ranked menus |
| CrawlMenus.Items | scripts/crawl-menus.ts:117-120 | one item per entry with its menu name, and an empty price becomes none |
| CrawlMenus.CrawlForPlace | scripts/crawl-menus.ts:79-127 | at most ten menus, and tags exactly when there are menus |
| CrawlMenus.KnownUrlSkipsSearch | scripts/crawl-menus.ts:84-87 | with a known profile address the search is never consulted |
| CrawlMenus.CrawledMenusMeaning | scripts/crawl-menus.ts:103-122 | with menu data, the menus are the ten lowest-ranked in rank order and the tags are those of all entries |
| CrawlMenus.MapSet | scripts/crawl-menus.ts:151-158 | setting a key adds at most one entry |
| CrawlMenus.MapSetMeaning | scripts/crawl-menus.ts:151-158 | setting keeps keys distinct, maps the key to the new value, leaves other keys, and keeps the insertion order |
| CrawlMenus.LookupIn | scripts/crawl-menus.ts:151-160 | a key found is the key of some entry |
| CrawlMenus.LookupFinds | scripts/crawl-menus.ts:151-160 | every entry's key is found |
| CrawlMenus.SetAllMeaning | scripts/crawl-menus.ts:151-158 | after a series of sets, a key maps to its last set value or keeps its old one, keys stay distinct and in first-set order |
| CrawlMenus.SetAllStep | scripts/crawl-menus.ts:153-158 | one more set extends the series |
| CrawlMenus.SetEntries | scripts/crawl-menus.ts:153-158 | the loop performs the series of sets |
| CrawlMenus.FirstUrl | scripts/crawl-menus.ts:156 | the chosen address is a non-empty address of the place's sources |
| CrawlMenus.SeedEntries | scripts/crawl-menus.ts:153-154 | seed places are entered without an address |
| CrawlMenus.CrawledEntries | scripts/crawl-menus.ts:155-158 | crawled places are entered with their first non-empty address |
| CrawlMenus.BuildPlaceMap | scripts/crawl-menus.ts:151-160 | the map is the seed restaurants, then cafés, then crawled places set in turn |
| CrawlMenus.SeedLastSet | scripts/crawl-menus.ts:153-154 | a seed entry always carries no address |
| CrawlMenus.PlaceMapMeaning | scripts/crawl-menus.ts:151-160 | names are distinct; a crawled place's last entry wins over seed entries of the same name; a name only among seed places has no address |
| CrawlMenus.CreateMenu | scripts/crawl-menus.ts:190-201 | a create either adds the row or, on a duplicate, changes nothing |
| CrawlMenus.SaveMenus | scripts/crawl-menus.ts:189-202 | saving only appends, at most one row per item |
| CrawlMenus.SaveMenusSource | scripts/crawl-menus.ts:191-198 | every saved row is a diningcode row of the place |
| CrawlMenus.Visit | scripts/crawl-menus.ts:167-219 | one place adds one to exactly one counter; a place with menus is skipped with nothing else changed; menus are only appended, as diningcode rows of the place |
| CrawlMenus.Run | scripts/crawl-menus.ts:163-219 | the counters add up to the number of places, menus are only appended, and no place gains a tag entry |
| CrawlMenus.MenuDb.FindMenu | scripts/crawl-menus.ts:172 | found exactly when the place has a menu row |
| CrawlMenus.MenuDb.Save | scripts/crawl-menus.ts:189-202 | the menu rows become the saved ones, tags unchanged |
| CrawlMenus.MenuDb.Tag | scripts/crawl-menus.ts:205-214 | only an existing crawled place of that name gets the tags |
| CrawlMenus.VisitPlace | scripts/crawl-menus.ts:167-219 | one loop iteration performs the visit on the database |
| CrawlMenus.RunStep | scripts/crawl-menus.ts:167-219 | one more place extends the run by one visit |
| CrawlMenus.RunLast | scripts/crawl-menus.ts:167-219 | the last place only appends rows of its own |
| CrawlMenus.CrawlAll | scripts/crawl-menus.ts:163-226 | the loop leaves the database and counters of the run |
| CrawlMenus.KnownPlaceSkipped | scripts/crawl-menus.ts:171-177 | a place that already has menus is counted as skipped and nothing else changes |
| CrawlMenus.AddedChain | scripts/crawl-menus.ts:167-219 | rows added over two stretches come from the places of either |
| CrawlMenus.AddedRowsFromSource | scripts/crawl-menus.ts:163-219 | every menu row the run adds is a diningcode row of one of the visited places |
| CrawlMenus.PlaceNamesLast | scripts/crawl-menus.ts:167-168 | the names of the places are those before the last plus the last |
| FixCoordinates.Normalize | scripts/fix-coordinates.ts:26-28 | normalising never lengthens a name |
| FixCoordinates.NormalizeClean | scripts/fix-coordinates.ts:26-28 | a normalised name has no white space and no capitals |
| FixCoordinates.RemoveSpaceAppend | scripts/fix-coordinates.ts:27 | removing white space distributes over concatenation |
| FixCoordinates.RemoveSpaceKeeps | scripts/fix-coordinates.ts:27 | a name without white space is unchanged |
| FixCoordinates.LowerAppend | scripts/fix-coordinates.ts:27 | lower-casing distributes over concatenation |
| FixCoordinates.NormalizeIdempotent | scripts/fix-coordinates.ts:26-28 | normalising twice is normalising once |
| FixCoordinates.NormalizeAppend | scripts/fix-coordinates.ts:26-28 | normalising distributes over concatenation |
| FixCoordinates.SpacingIgnored | scripts/fix-coordinates.ts:26-28 | a space between two parts makes no difference to the key |
| FixCoordinates.KeyIndex | scripts/fix-coordinates.ts:42 | the first group with the key, none only when no group has it |
| FixCoordinates.AddTo | scripts/fix-coordinates.ts:42-43 | adding to a known key keeps the groups; a new key opens a group holding the place at the end; keys keep their order |
| FixCoordinates.Members | scripts/fix-coordinates.ts:39-44 | a group's members are located rows with its key |
| FixCoordinates.MembersNone | scripts/fix-coordinates.ts:39-44 | no members for a key no located row has |
| FixCoordinates.GroupedKeys | scripts/fix-coordinates.ts:38-44 | group keys are distinct and every located row's key has a group |
| FixCoordinates.GroupedMembers | scripts/fix-coordinates.ts:38-44 | each group holds exactly the located rows with its key, in order |
| FixCoordinates.CrowdedMember | scripts/fix-coordinates.ts:47-49 | a member of a crowded group is a located row sharing its key with at least four others |
| FixCoordinates.Crowded | scripts/fix-coordinates.ts:47-49 | exactly the groups of five or more places |
| FixCoordinates.GroupByCoord | scripts/fix-coordinates.ts:38-44 | the loop builds the grouping |
| FixCoordinates.DongEnd | scripts/fix-coordinates.ts:67 | the end of a Hangul run ending in 동 and followed by white space at a position, if one matches there |
| FixCoordinates.FirstDong | scripts/fix-coordinates.ts:67 | the leftmost match, none only when nothing matches |
| FixCoordinates.DongOf | scripts/fix-coordinates.ts:67-68 | no dong exactly when the pattern matches nowhere |
| FixCoordinates.DongShape | scripts/fix-coordinates.ts:67 | a dong is two or more Hangul syllables ending in 동 and is followed by white space in the address |
| FixCoordinates.DongsMeaning | scripts/fix-coordinates.ts:64-69 | dongs are distinct and are exactly those of the places' non-empty addresses |
| FixCoordinates.CollectDongs | scripts/fix-coordinates.ts:64-69 | the loop collects the dongs |
| FixCoordinates.Keys | scripts/fix-coordinates.ts:77 | one key per entry |
| FixCoordinates.Get | scripts/fix-coordinates.ts:77 | a value found is stored under the key; none only when no entry has it |
| FixCoordinates.PutGet | scripts/fix-coordinates.ts:89-102 | a set key reads back its new value, other keys their old one |
| FixCoordinates.PutKeys | scripts/fix-coordinates.ts:89-102 | setting a new key appends it; an old key keeps its place |
| FixCoordinates.PutPoiGet | scripts/fix-coordinates.ts:86-104 | a point is stored under its full name and, with a branch, under its bare name too |
| FixCoordinates.LastWhere | scripts/fix-coordinates.ts:86-104 | an index within the list |
| FixCoordinates.LastWhereMeaning | scripts/fix-coordinates.ts:86-104 | the last index satisfying the test, none only when none does |
| FixCoordinates.LastWith | scripts/fix-coordinates.ts:86-104 | an index within the list |
| FixCoordinates.LastWithMeaning | scripts/fix-coordinates.ts:86-104 | the last point stored under the key |
| FixCoordinates.LastPoiWins | scripts/fix-coordinates.ts:86-133 | after storing a list of points, a key holds the last point stored under it |
| FixCoordinates.PutAllAppend | scripts/fix-coordinates.ts:79-136 | storing two lists in turn is storing their concatenation |
| FixCoordinates.PoiMapFlat | scripts/fix-coordinates.ts:79-136 | the map over all dongs is the map of all fetched points in order, food then café for each dong |
| FixCoordinates.LaterPoisWin | scripts/fix-coordinates.ts:79-136 | a key holds its last fetched point |
| FixCoordinates.AddPois | scripts/fix-coordinates.ts:86-104 | the loop stores each point |
| FixCoordinates.BuildPoiMap | scripts/fix-coordinates.ts:77-136 | the loops build the map over the dongs |
| FixCoordinates.FirstRelated | scripts/fix-coordinates.ts:161-162 | the first key containing or contained in the name, in map order |
| FixCoordinates.SelfRelated | scripts/fix-coordinates.ts:162 | a name is related to itself |
| FixCoordinates.Match | scripts/fix-coordinates.ts:145-175 | an exact key wins, else the first related key; no match exactly when no key is related |
| FixCoordinates.FindPartial | scripts/fix-coordinates.ts:161-175 | the loop finds the first related key |
| FixCoordinates.NewAddress | scripts/fix-coordinates.ts:149 | the road address, else the lot address, else the existing one |
| FixCoordinates.SetById | scripts/fix-coordinates.ts:150-153 | the update keeps the ids and names of all rows |
| FixCoordinates.PlaceTable.Update | scripts/fix-coordinates.ts:150-153 | the row with the id is moved, the rest unchanged |
| FixCoordinates.Repaired | scripts/fix-coordinates.ts:144-181 | the table keeps its length |
| FixCoordinates.Found | scripts/fix-coordinates.ts:141-181 | at most one fix per place |
| FixCoordinates.FixGroup | scripts/fix-coordinates.ts:141-183 | the loop moves each matched place and counts fixed and not found, which add up to the group size |
| FixCoordinates.Pass | scripts/fix-coordinates.ts:60-184 | the table keeps its length |
| FixCoordinates.FixOneGroup | scripts/fix-coordinates.ts:60-184 | one group: nothing without a dong, else its places moved by the map of its dongs, with the counts reported |
| FixCoordinates.FixStep | scripts/fix-coordinates.ts:60-184 | one more group advances the table and reports |
| FixCoordinates.FixGroups | scripts/fix-coordinates.ts:60-184 | the groups are processed in order, one report each |
| FixCoordinates.FixCoordinates | scripts/fix-coordinates.ts:30-187 | the crowded groups of the old table are processed in order, one report each |
| FixCoordinates.RepairedOutside | scripts/fix-coordinates.ts:144-181 | ids never change and rows outside the group are unchanged |
| FixCoordinates.RepairedAt | scripts/fix-coordinates.ts:144-181 | a group row is repaired from its own entry |
| FixCoordinates.PassOutside | scripts/fix-coordinates.ts:60-184 | rows in no processed group are unchanged |
| FixCoordinates.Untouched | scripts/fix-coordinates.ts:39-49 | a place without coordinates or sharing its point with fewer than four others is never changed |
| FixCoordinates.PassAppend | scripts/fix-coordinates.ts:60-184 | processing two lists of groups in turn is processing their concatenation |
| FixCoordinates.MembersUnique | scripts/fix-coordinates.ts:38-44 | a group never holds one id twice |
| FixCoordinates.CrowdedDistinct | scripts/fix-coordinates.ts:47-49 | crowded groups have distinct keys |
| FixCoordinates.OneGroup | scripts/fix-coordinates.ts:38-49 | a place belongs to one crowded group only |
| FixCoordinates.MemberIsRow | scripts/fix-coordinates.ts:38-44 | a member is the row with its id |
| FixCoordinates.CrowdedUnique | scripts/fix-coordinates.ts:47-49 | a crowded group never holds one id twice |
| FixCoordinates.OtherGroups | scripts/fix-coordinates.ts:47-49 | a place of one crowded group is in no other |
| FixCoordinates.GroupStepAt | scripts/fix-coordinates.ts:71-181 | one group's step repairs its own row from the group's map, or leaves it without a dong |
| FixCoordinates.PassAt | scripts/fix-coordinates.ts:60-184 | a row in exactly one group ends as that group repairs it |
| FixCoordinates.GroupRowRepaired | scripts/fix-coordinates.ts:30-187 | every place of a crowded group ends matched against the points of its own group's dongs, or unchanged when the group has no dong |
| FixCoordinates.DongExample | scripts/fix-coordinates.ts:67 | "서울 이태원동 123" gives 이태원동 |
| FixCoordinates.DongNeedsSpace | scripts/fix-coordinates.ts:67 | "한남동123" gives no dong, since white space must follow |
| ParkingAgent.FirstCovering | src/lib/agents/nodes/parking.ts:23-28 | the first district from k on whose box holds the point, none only when none does |
| ParkingAgent.DistrictOf | src/lib/agents/nodes/parking.ts:5-29 | no district exactly when no box holds the point; otherwise the first box that does |
| ParkingAgent.GetDistrictName | src/lib/agents/nodes/parking.ts:23-28 | the loop returns the first covering district |
| ParkingAgent.OverlapTakesFirst | src/lib/agents/nodes/parking.ts:11-12 | a point in both the 강남구 and 서초구 boxes is 강남구, the earlier entry |
| ParkingAgent.Amount | src/lib/agents/nodes/parking.ts:92-93 | a missing or unparsable number is 0 |
| ParkingAgent.Hours | src/lib/agents/nodes/parking.ts:95-98 | "begin~end" when both weekend times are present, else "24시간" |
| ParkingAgent.RowLot | src/lib/agents/nodes/parking.ts:85-117 | a row is stored exactly when it has a non-blank name and two non-zero coordinates, under its trimmed name, without an address, with the description "<district> <type> 주차장" |
| ParkingAgent.RowLots | src/lib/agents/nodes/parking.ts:84 | only the first 30 rows are considered, in order |
| ParkingAgent.AgentErrors | src/lib/agents/nodes/parking.ts:49-62 | one error at most, and none without a location |
| ParkingAgent.AgentLots | src/lib/agents/nodes/parking.ts:53-119 | at most 30 candidates, and candidates only when there was no error |
| ParkingAgent.RunParkingAgent | src/lib/agents/nodes/parking.ts:44-128 | no crawled places are returned; the errors are the specified ones; the table gains exactly the new candidates |
| ParkingAgent.AgentStores | src/lib/agents/nodes/parking.ts:84-119 | at most 30 lots are created, none under a stored name, no name twice, all trimmed and non-empty with non-zero coordinates |
| ParkingAgent.AgentLotShape | src/lib/agents/nodes/parking.ts:85-90 | every candidate has a trimmed non-empty name and non-zero coordinates |
| ChatResolve.TokenMatchSymmetric | src/app/api/chat/resolve/route.ts:22-31 | token matching does not depend on argument order |
| ChatResolve.TokenMatchReflexive | src/app/api/chat/resolve/route.ts:22-31 | every name matches itself |
| ChatResolve.ContainsSelf | src/app/api/chat/resolve/route.ts:24 | a string contains itself |
| ChatResolve.ContainsEmpty | src/app/api/chat/resolve/route.ts:24 | every string contains the empty string |
| ChatResolve.EmptyMatchesAll | src/app/api/chat/resolve/route.ts:24 | the empty name matches every name, on either side |
| ChatResolve.TokenMatchMeaning | src/app/api/chat/resolve/route.ts:22-31 | a match is containment either way, or one side having at least two white-space tokens all contained in the other |
| ChatResolve.SingleTokenNeedsContainment | src/app/api/chat/resolve/route.ts:24-30 | two one-token names match exactly when one contains the other |
| ChatResolve.TokenExample | src/app/api/chat/resolve/route.ts:26-30 | "라이너스 바베큐" matches "라이너스바베큐 이태원" by its tokens, without containment |
| ChatResolve.FirstWhere | src/app/api/chat/resolve/route.ts:216 | the found element satisfies the predicate; nothing is found exactly when no element does |
| ChatResolve.FirstWhereFirst | src/app/api/chat/resolve/route.ts:216 | the found element is the first one satisfying the predicate |
| ChatResolve.Find | src/app/api/chat/resolve/route.ts:216 | the found place is a pool place matching the normalised name; none exactly when no pool place matches |
| ChatResolve.FindFirst | src/app/api/chat/resolve/route.ts:216 | the found place is the first matching pool place |
| ChatResolve.ResolveNames | src/app/api/chat/resolve/route.ts:209-219 | no more places than names, every one from the pool |
| ChatResolve.ResolvedOrUnmatched | src/app/api/chat/resolve/route.ts:209-219 | every extracted name is either resolved or dropped as unmatched; nothing is dropped exactly when all resolve |
| ChatResolve.ResolveEmptyPool | src/app/api/chat/resolve/route.ts:209-219 | an empty pool resolves nothing |
| ChatResolve.FindMatched | src/app/api/chat/resolve/route.ts:329-334 | the kept places are pool places matching some extracted name |
| ChatResolve.FindInMatched | src/app/api/chat/resolve/route.ts:548-554 | looking a name up in the pool pre-filtered by `findMatched` (lines 329-334) finds what the full pool gives |
| ChatResolve.ResolveSame | src/app/api/chat/resolve/route.ts:548-554 | resolving any of the extracted names against the pre-filtered pool equals resolving against all places |
| ChatResolve.FinalMatchOrder | src/app/api/chat/resolve/route.ts:548-554 | the final match follows extracted order, each name giving its first matching place |
| ChatResolve.PlaceNames | src/app/api/chat/resolve/route.ts:236-243 | one name per place |
| ChatResolve.Stops | src/app/api/chat/resolve/route.ts:237-257 | stops are numbered 1..n in place order and carry each place's id and type |
| ChatResolve.NonEmpty | src/app/api/chat/resolve/route.ts:245 | exactly the courses with stops are kept |
| ChatResolve.Numbered | src/app/api/chat/resolve/route.ts:232-244 | course i is numbered i + 1 over the places its names resolve to |
| ChatResolve.Resolved | src/app/api/chat/resolve/route.ts:233 | each course's names resolve within the matched places |
| ChatResolve.NumberedOver | src/app/api/chat/resolve/route.ts:232-244 | group i becomes course number i + 1 |
| ChatResolve.BuildCourses | src/app/api/chat/resolve/route.ts:224-260 | no places give no courses; without extracted courses a single course 1 over all places; every course has stops |
| ChatResolve.ConsIncreasing | src/app/api/chat/resolve/route.ts:232-245 | a smaller course number in front keeps the numbers increasing |
| ChatResolve.NonEmptyIncreasing | src/app/api/chat/resolve/route.ts:245 | removing empty courses keeps numbers increasing |
| ChatResolve.CourseStops | src/app/api/chat/resolve/route.ts:237-242 | every stop is numbered by its position and names a matched place |
| ChatResolve.CoursesShape | src/app/api/chat/resolve/route.ts:224-260 | course numbers increase and lie between 1 and the number of extracted courses; stops are numbered 1..n and name matched places |
| ChatResolve.NumberedCourse | src/app/api/chat/resolve/route.ts:232-244 | a numbered course has a number within range and well-formed stops |
| ChatResolve.NonEmptyPair | src/app/api/chat/resolve/route.ts:245 | of an empty and a non-empty course only the second is kept |
| ChatResolve.NumberedPair | src/app/api/chat/resolve/route.ts:232-244 | two extracted courses are numbered 1 and 2 |
| ChatResolve.CourseStopCount | src/app/api/chat/resolve/route.ts:237-242 | a course has one stop per place |
| ChatResolve.NumbersCanSkip | src/app/api/chat/resolve/route.ts:231-245 | when the first extracted course resolves to nothing, the only course left is numbered 2 |
| ChatResolve.ReadInput | src/app/api/chat/resolve/route.ts:271-309 | a non-JSON body is a 400; a ready input has a non-empty region; every rejection is a 400 or a 500 |
| ChatResolve.DirectSkipsExtraction | src/app/api/chat/resolve/route.ts:287-290 | a region with a non-empty place list does not depend on the extractor and keeps the names in order |
| ChatResolve.ExtractionPath | src/app/api/chat/resolve/route.ts:291-309 | without a direct list, a truthy AI response goes through the extractor: an extractor failure is the catch-all 500 (in src/app/api/chat/resolve/route.ts:616-621), an empty region the 400 "지역을 파악할 수 없습니다.", and otherwise the extracted region, places and courses are used unchanged |
| ChatResolve.NothingToResolve | src/app/api/chat/resolve/route.ts:297-302 | neither a direct list nor an AI response gives the 400 "aiResponse or region+places is required" |
| ChatResolve.Finish | src/app/api/chat/resolve/route.ts:547-615 | the answer is a match exactly when some name resolves, with the places in extracted order and their courses; the empty answer exactly when no place is known |
| ChatResolve.SingleCourseAnswer | src/app/api/chat/resolve/route.ts:593-612 | without extracted courses the recommendations are every matched place numbered in order and the route summary joins their names with " → " |
| Recommender.PrefixMeaning | src/lib/llm.ts:140-142 | the id prefix is R exactly for restaurants, C exactly for cafés and P for parking, bars and bakeries |
| Recommender.ShortId | src/lib/llm.ts:142 | a compressed id is the prefix followed by the decimal list index |
| Recommender.ShortIdsDistinct | src/lib/llm.ts:138-145 | places at different indices get different compressed ids |
| Recommender.IdMapFinds | src/lib/llm.ts:138-145 | each place's compressed id maps back to that place |
| Recommender.IdMapKeys | src/lib/llm.ts:138-145 | every key of the id map is the compressed id of some listed place |
| Recommender.IdMapPlaces | src/lib/llm.ts:138-145 | every id map entry is an input place |
| Recommender.Remap | src/lib/llm.ts:169-174 | exactly the recommendations with known ids survive, in order, with the real id and type of their place and their order and reason unchanged |
| Recommender.RemapMeaning | src/lib/llm.ts:169-174 | every remapped stop carries the id and type of an input place; a recommendation with an unknown id is dropped |
| Recommender.Keywords | src/lib/llm.ts:184 | splitting always yields at least one keyword |
| Recommender.Hits | src/lib/llm.ts:204-206 | the score never exceeds the number of keywords |
| Recommender.HitsMeaning | src/lib/llm.ts:204-206 | the score is zero exactly when no keyword occurs in the search text, and full exactly when every one does |
| Recommender.Score | src/lib/llm.ts:186-208 | the counting loop computes the number of keywords contained in the search text |
| Recommender.ScoredAll | src/lib/llm.ts:186-208 | one scored entry per place, in order, with that place's keyword count |
| Recommender.PlaceNames | src/lib/llm.ts:231-250 | one name per place, in order |
| Recommender.PlacesOf | src/lib/llm.ts:250 | the places of the scored entries, in order |
| Recommender.KeywordFallback | src/lib/llm.ts:183-252 | the fallback loop computes the keyword-fallback answer |
| Recommender.TopHasBest | src/lib/llm.ts:210-213 | some place with a positive score makes the top list non-empty |
| Recommender.TopNone | src/lib/llm.ts:212-213 | when no place scores, the top list is empty |
| Recommender.TopEmptyIff | src/lib/llm.ts:210-213 | the top list is empty exactly when no place has a positive score |
| Recommender.TopShape | src/lib/llm.ts:210-212 | at most five entries, in non-increasing score order, each a listed place with its own positive score |
| Recommender.KeywordPath | src/lib/llm.ts:235-251 | with some match the persona is the query and the recommendations are the top places numbered 1..n, at most five, with positive non-increasing scores |
| Recommender.PopularPath | src/lib/llm.ts:213-232 | with no match the persona is "일반 추천" and the recommendations are at most three non-parking places by descending rating, numbered 1..n |
| Recommender.PopularShape | src/lib/llm.ts:214-221 | at most three input places, none parking, by descending rating |
| Recommender.EmptyQueryScoresAll | src/lib/llm.ts:184-206 | the empty query yields the single empty keyword, which every place contains |
| Recommender.GetRecommendations | src/lib/llm.ts:133-181 | the id map is filled place by place and the answer is the remapped reply, or the keyword fallback when the call fails |
| Recommender.PopularIds | src/lib/llm.ts:223-232 | every popular recommendation names an input place |
| Recommender.KeywordIds | src/lib/llm.ts:235-251 | every keyword recommendation names an input place |
| Recommender.RecommendedIdsKnown | src/lib/llm.ts:169-240 | whatever path is taken, every recommended id is the id of an input place |
| CourseRecommender.PyPrefixMeaning | docs/samples/llm_service.py:167-169 | the Python prefix is P exactly for parking and R for restaurants and bars; it differs from the TypeScript prefix exactly on bars and bakeries |
| CourseRecommender.KeptStopsMeaning | docs/samples/llm_service.py:193-202 | no stop is added; every kept stop carries the id and type of a mapped place; when every id is known, every stop is kept |
| CourseRecommender.RemapStops | docs/samples/llm_service.py:193-202 | the stop loop keeps exactly the stops with known ids, remapped |
| CourseRecommender.Warning | docs/samples/llm_service.py:217-223 | the warning is one of the three fixed messages |
| CourseRecommender.WarningMeaning | docs/samples/llm_service.py:217-223 | the key warning exactly for 401, 403 or "API key"; the model warning exactly for 404 or "No allowed providers" otherwise; the transient one for the rest |
| CourseRecommender.EmptyAnswerIsTransient | docs/samples/llm_service.py:185-223 | an empty model reply gives the transient warning |
| CourseRecommender.PyScored | docs/samples/llm_service.py:233-250 | one scored entry per place, in order, with its keyword count over the Python search text |
| CourseRecommender.Reasons | docs/samples/llm_service.py:273 | one reason per stop, in order |
| CourseRecommender.PairCourses | docs/samples/llm_service.py:262-274 | one course per chosen restaurant, in order |
| CourseRecommender.ScorePlaces | docs/samples/llm_service.py:233-250 | the scoring loop computes the scored list |
| CourseRecommender.BuildPairs | docs/samples/llm_service.py:262-274 | the course loop computes the restaurant–café pairing |
| CourseRecommender.KeywordFallbackPy | docs/samples/llm_service.py:229-293 | the fallback method computes the Python fallback answer |
| CourseRecommender.ChosenTypes | docs/samples/llm_service.py:254-260 | at most three restaurants and two cafés are chosen, each from the scored list and of its type |
| CourseRecommender.ScoringPreferred | docs/samples/llm_service.py:254-260 | when some restaurant (café) scores, only scoring restaurants (cafés) are chosen |
| CourseRecommender.RestaurantChosen | docs/samples/llm_service.py:254-258 | any restaurant in the list means some restaurant is chosen |
| CourseRecommender.PyFallbackShape | docs/samples/llm_service.py:262-293 | persona is the query, no warning, at least one course; with restaurants, course i is numbered i + 1 with the restaurant first and café i mod the café count second; without, the single top-three course |
| CourseRecommender.RestaurantsMakeCourses | docs/samples/llm_service.py:254-274 | any restaurant input gives one course per chosen restaurant |
| CourseRecommender.GetRecommendationsPy | docs/samples/llm_service.py:159-226 | the id map is filled place by place and the answer is the remapped reply, or the fallback with its warning |
| CourseRecommender.KeptStopsKnown | docs/samples/llm_service.py:164-202 | every kept stop names an input place with its type |
| CourseRecommender.AnsweredCourses | docs/samples/llm_service.py:190-214 | a reply keeps its course count, has no warning, and every stop names an input place |
| CourseRecommender.FailedFallsBack | docs/samples/llm_service.py:215-226 | a failure gives the fallback courses with the classified warning |
| Classify.ItemOf | src/lib/classify.ts:47-52 | the item keeps the name and at most the first 60 characters of the description, the whole description when it is that short |
| Classify.Items | src/lib/classify.ts:47-52 | one item per candidate, in order |
| Classify.BatchesCover | src/lib/classify.ts:45-46 | the batches concatenate back to the input; each has 1 to 30 entries and all but the last exactly 30 |
| Classify.BatchCount | src/lib/classify.ts:40-46 | no places give no batch; at most 30 places give one batch of all of them |
| Classify.LastValid | src/lib/classify.ts:71-75 | the chosen answer is a valid one for that name |
| Classify.RecordMeaning | src/lib/classify.ts:71-75 | a name gets the type of its last valid answer in the batch, and keeps its previous entry when it has none |
| Classify.RecordValid | src/lib/classify.ts:71-75 | recording answers keeps every stored type among restaurant, cafe, bar and bakery |
| Classify.RecordAnswers | src/lib/classify.ts:71-75 | the answer loop computes the recorded map |
| Classify.ClassifyPlaces | src/lib/classify.ts:37-82 | the batch loop computes the classification and asks the classifier once per batch |
| Classify.AbsorbValid | src/lib/classify.ts:71-75 | absorbing batches keeps every stored type valid |
| Classify.ClassifiedValid | docs/samples/classify.py:74-76 | every classified type is one of the four valid types |
| Classify.FailedBatchSkipped | src/lib/classify.ts:65-78 | a batch whose call fails or answers nothing changes nothing |
| Classify.AbsorbAppend | src/lib/classify.ts:45-79 | the batches are absorbed one after another |
| Classify.LaterBatchWins | src/lib/classify.ts:73 | a name answered validly in a later batch takes that batch's type |
| Classify.AllFailed | docs/samples/classify.py:70-78 | when every batch fails the result is the empty map |
| Classify.Candidates | docs/samples/classify.py:95-105 | one candidate per row, in order |
| Classify.UpdatesMeaning | src/lib/classify.ts:104-111 | every update is for a row whose name got a type, with that type; there is one per such row and each such row has one |
| Classify.ClassifyAndPersistTs | src/lib/classify.ts:88-121 | no rows give the empty map and no update |
| Classify.CrawledTable.constructor | docs/samples/classify.py:111 | the table holds the given place types |
| Classify.CrawledTable.SetTypes | docs/samples/classify.py:107-114 | each found row with a type is written in order, and the count is the number of such rows |
| Classify.CrawledTable.ClassifyAndPersist | docs/samples/classify.py:83-120 | no records give the empty map; otherwise the classification is written to the found rows and committed exactly when some row was updated |
| Classify.Persisted | docs/samples/classify.py:107-114 | the set of rows in the table never changes |
| Classify.PersistedUntouched | docs/samples/classify.py:107-114 | a row no typed record names keeps its type |
| Classify.PersistedLastWriter | docs/samples/classify.py:107-114 | a row takes the type of the last typed record naming it |
| Classify.NothingFound | docs/samples/classify.py:107-118 | when no typed record is found nothing is written and nothing counted |
| OpenRouter.FenceAtMeaning | src/lib/openrouter.ts:13 | a fence is three backticks at that position |
| OpenRouter.FindFence | src/lib/openrouter.ts:13 | the found fence is the leftmost one from the start position; none is found exactly when none occurs |
| OpenRouter.ContentStart | src/lib/openrouter.ts:13 | the content starts right after the fence, or after the fence and a "json" tag |
| OpenRouter.ExtractJson | src/lib/openrouter.ts:12-15 | the result is trimmed |
| OpenRouter.FindFenceIs | src/lib/openrouter.ts:13 | with no backtick before it, the first fence is the one found |
| OpenRouter.NoFence | src/lib/openrouter.ts:14 | text without a fence is only trimmed |
| OpenRouter.TaggedMatch | src/lib/openrouter.ts:13-14 | a json-tagged block yields its trimmed content up to the next fence |
| OpenRouter.UntaggedMatch | src/lib/openrouter.ts:13-14 | an untagged block yields its trimmed content up to the next fence |
| OpenRouter.FenceAfter | src/lib/openrouter.ts:13 | the closing fence is the first fence after a backtick-free body |
| OpenRouter.Regroup | src/lib/openrouter.ts:13 | string concatenation regroups |
| OpenRouter.Opens | src/lib/openrouter.ts:13 | the opening fence follows a backtick-free prefix |
| OpenRouter.Between | src/lib/openrouter.ts:13 | slicing recovers the middle of a concatenation |
| OpenRouter.Tagged | src/lib/openrouter.ts:13 | a fence followed by "json" is tagged |
| OpenRouter.NotTagged | src/lib/openrouter.ts:13 | a body that does not start with "json" is not tagged |
| OpenRouter.JsonBlock | docs/samples/openrouter_client.py:20-23 | the trimmed body of the first json-tagged block is extracted |
| OpenRouter.UntaggedBlock | docs/samples/openrouter_client.py:20-23 | the trimmed body of the first untagged block is extracted |
| OpenRouter.UnclosedFence | src/lib/openrouter.ts:13-14 | an opening fence with no closing fence leaves the whole text, trimmed |
| OpenRouter.FirstBlockWins | src/lib/openrouter.ts:13 | of two fenced blocks the first is extracted |
| OpenRouter.ChatCompletion | docs/samples/openrouter_client.py:26-53 | no request and no content without a key; an error is raised exactly for a transport error, an error status, a body that is not JSON or an empty choice list; returned content is the first choice's message content |
| Normalize.NormalizeShape | src/lib/normalize.ts:9-15 | trim, lower-casing, suffix removal and collapsing give a trimmed, lower-case, single-spaced name no longer than the input |
| Normalize.LowerIdempotent | src/lib/normalize.ts:12 | lower-casing twice is lower-casing once |
| Text.Trim | src/lib/normalize.ts:11 | the result has no white space at either end and is no longer than the input |
| Text.Lower | src/lib/normalize.ts:12 | lower-casing keeps the length |
| Text.LowerChar | src/lib/normalize.ts:12 | a lowered character is not upper-case ASCII and is white space exactly when the original is |
| Text.LowerNoUpper | src/lib/normalize.ts:12 | a string without upper-case ASCII is its own lower-case form |
| Text.TrimmedTrim | src/lib/normalize.ts:11 | trimming a trimmed string changes nothing |
| Text.SplitWs | src/app/api/chat/resolve/route.ts:26-27 | splitting on white-space runs yields at least one piece, none containing white space |
| Text.SplitPy | docs/samples/llm_service.py:231 | Python's argument-less split yields only non-empty pieces without white space |
| Text.RemoveSpace | scripts/enrich-yongsan-parking.ts:120-121 | removing white space leaves none and never lengthens |
| Text.Collapse | src/lib/normalize.ts:14 | collapsing white-space runs never lengthens |
| Text.CollapseShape | src/lib/normalize.ts:14 | collapsing a trimmed string keeps it trimmed, with single plain spaces only |
| Text.Decimal | src/lib/llm.ts:142 | the decimal form is non-empty, all digits, and has two or more digits exactly from 10 on |
| Text.DecimalInjective | src/lib/llm.ts:142 | different numbers have different decimal forms |
| Places.Unseen | src/lib/place-mapper.ts:204-213 | filtering out seen names never adds places |
| PlaceMapper.SeedPlaces | src/lib/place-mapper.ts:83-92 | one mapped place per seed row |
| PlaceMapper.LotPlaces | src/lib/place-mapper.ts:93-110 | one mapped place per parking row |

## Left out

- Network, database and LLM calls are not modelled as I/O. Each one is a
  parameter: an oracle function or a precomputed list, such as a query
  result with its bounds already applied.
- Sleeps, logging, timeouts and prompt texts are not modelled. They do not
  change the values computed.
- Concurrency is not modelled. The `Promise.all` batches of updates and
  saves are treated as sequential writes in list order.
- The haversine distance is a parameter. Only its comparison with the
  200 m threshold matters.
- Floating-point numbers are `real`. The `toFixed(4)` grouping key in
  `scripts/fix-coordinates.ts` is a key-function parameter (`CoordKey`).
- White space is the JavaScript `\s` set in both ports. Python also counts
  `\x1c`-`\x1f` and `\x85` as white space but not U+FEFF. That difference
  is left out.
- Lower-casing is ASCII only. Hangul has no case, and other Unicode case
  mappings are left out.
- Strings are sequences of code points. JavaScript's UTF-16 indexing only
  differs outside the Basic Multilingual Plane.
- `localeCompare(…, "ko")` is modelled as code-point order
  (`Sorting.StrLess`). Locale collation rules are left out.
- `LANDMARK_MAP[query]` is a lookup in the landmark table. Inherited
  object-prototype keys such as `"constructor"` are left out.
- Prisma `@updatedAt`: the update timestamp is assumed to refresh on every
  write. The database schema is not part of this model.
- Database errors other than the unique-source violation are left out.
- A TypeScript save that throws part-way is modelled as leaving the place
  untouched. The writes made before the throw are left out.
- Classify.ClassifyPlaces: a batch is either answered with a list of
  name/type pairs or fails as a whole. An answer that parses but has the
  wrong shape is treated as a failed batch. The source's behaviour on an
  answer entry without a name is left out.
- Aggregator.Aggregate: does not include the cache save of step 4. That save
  is modelled separately by `PlaceCache.SaveAll`.
- ParkingAgent.AgentErrors: states how many error strings there are and
  when, not their text.
- ChatResolve.ReadInput: a JSON `null` body makes the destructuring of the
  body throw, which the route's catch turns into a 500; the model's body is
  an `Option<Request>` and cannot be `null`, so that path is not modelled.
- Geocode.DigitGuard: Python's `\d` on a `str` also matches non-ASCII
  decimal digits (fullwidth `２`, for instance), while the JavaScript `\d` is
  ASCII only; the model uses ASCII digits for both ports.
- ChatResolve.ReadInput: the region geocoding after the input stage is left
  out (a 400 when the region cannot be located, then the bounds query).
  `Finish` takes the final place pool as an input.
- ChatResolve.Finish: does not model steps 5 to 5.6 that grow the pool:
  - the region crawl;
  - the per-name crawl;
  - the place-search resolution of still-unmatched names.
  These are crawler and geocoder calls. Their only effect on matching is the
  pool that `Finish` receives.
- ChatResolve.Finish: the summary text of the matched answer is left out.
- ChatResolve.Finish: when nothing matches, the answer records only that
  the recommender is asked with the persona. That branch reads `courses`
  and `warning` from the TypeScript `getRecommendations` result, which
  returns `recommendations` and has no `courses`. Its output is not
  modelled.
- The menu JSON/HTML parsing and profile-URL extraction of
  `scripts/crawl-menus.ts` are parameters.
- `compressPlace` text formatting and distance strings are left out. Only
  the id prefixes and indices are modelled.
- `extractLocation` is not modelled. It is a single LLM call whose answer
  the callers receive as a parameter.
- Null versus undefined tags: the seed mapping's `...r` spread is treated as
  giving no tags in both cases.

## Findings

| source | as written | input that shows it | evidently intended | confidence | as-written member | corrected member |
|---|---|---|---|---|---|---|
| docs/samples/agents/dedup.py:46-55 | the duplicate-source check compares each stored source with `place.get("source")`, which is `None` for a record without a source, but the entry it appends stores `place.get("source", "")` | two records both named "A" with no source and no coordinates | compare against the same defaulted value that is stored, so each group lists a source once, as the TypeScript `deduplicatePlaces` does | not executed | Dedup.PythonDuplicatesMissingSource | Dedup.SourcesDistinct |

