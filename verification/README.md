# Memory Map: photo stories, photo graph and card state in Dafny

Memory Map uploads a set of photos to a Flask backend. The backend turns them into a graph:
one node per photo, with the photos grouped into DBSCAN clusters and each cluster chained
by links. A React frontend then does three things with that graph:

- It samples photos for the user to rate and builds a "final story" from the ratings.
- It groups nodes into stories by date, face count, location and cluster.
- It records the user's story preferences.

This project models that logic and proves what it promises:

- `Server` models `process_images` in `backend/src/server.py`. It builds the nodes, the label → indices dictionary (with its key order) and the links.
- `StoryPage` models the story page's state and handlers in `frontend/src/StoryPage.jsx`. It covers sampling, rating, wrap-around navigation and path fixing.
- `FinalStory` models `generateFinalStory`. It contains the function as written, which the story page uses as the source does, and a corrected version; see Findings.
- `StoryGenerator` models `frontend/src/StoryGenerator.js`. It covers the date, face and location groupings, `generateStories` and `updatePreferences`, including its shared nested objects.
- `StoryCard` models the card index in `frontend/src/StoryCard.jsx`: rating, clamped navigation, the display index, the image source and the error cards.
- `PrepPhotos` models the selection handlers in `frontend/src/PrepPhotosPage.jsx`.
- `Wrappers`, `Seqs`, `Strings` and `Photos` hold the shared pieces: Option, JavaScript `filter`, `new Set` order, `slice`, `startsWith`, `str(n)`, `parseInt` and the photo node.

Each handler that changes component state is a method of a class whose fields are the
component's state hooks. Loops in the source are `while`/`for` loops in the model, proved
against specification functions. Randomness (`Math.random`) is a nondeterministic choice
(`:|`). `Date.now()` (a clock read once per story, `clock(position)`), the day key `toISOString().slice(0, 10)`, the location key built with
`toFixed(2)`, the haversine "near" test, DBSCAN, the date → days conversion and `isoformat`
are parameters.

## Model

| member | source | states |
|---|---|---|
| Server.ProcessImages | backend/src/server.py:72-139 | With no photos the answer is the 400 error "No files received", and only then. Otherwise node i is built from the i-th upload and the i-th DBSCAN label. The links are those of `LinkPairs`, i.e. the consecutive members of each non-noise cluster in dict order. |
| Server.BuildFeatures | backend/src/server.py:90-93 | One feature row per upload, in order: days, latitude 0, longitude 0, face count. |
| Server.UndatedNode | backend/src/server.py:11-14 | A node has no `dateTime` exactly when no EXIF date was parsed for it. Its day feature is then 0 (line 92). |
| Server.BuildNodes | backend/src/server.py:104-114 | One node per upload, in upload order. Node i has id `str(i)`, the i-th filename, cluster `labels[i]`, the face count, and `isoformat()` of the date or None. |
| Server.NodeIdsDistinct | backend/src/server.py:107 | Different nodes have different ids, so `str(i)` identifies node i. |
| Server.BuildClusters | backend/src/server.py:117-121 | The dict keys are the labels in order of first appearance. A label is a key iff it occurs, and each key maps to exactly the indices carrying it. |
| Server.IndicesOfMember | backend/src/server.py:118-121 | An index is in a label's list iff it is in range and carries that label. |
| Server.IndicesOfIncreasing | backend/src/server.py:118-129 | Each list is strictly increasing: `indices.sort()` leaves it unchanged and no index repeats. |
| Server.ClusterPartition | backend/src/server.py:117-121 | Every index lies in the list of its own label and in no other list. |
| Server.BuildLinks | backend/src/server.py:124-134 | The link loop emits, cluster by cluster in dict order, the links of consecutive list entries, and skips label -1. |
| Server.ChainCluster | backend/src/server.py:130-134 | The inner loop appends one link per pair of consecutive entries. |
| Server.LinkJoinsNeighbours | backend/src/server.py:125-134 | Every link joins two indices with the same non-noise label, source before target, with no index of that label between them. |
| Server.ChainNeighbours | backend/src/server.py:129-134 | Consecutive entries of a label's list carry that label, increase, and have no index of the label between them. |
| Server.NoNoiseLink | backend/src/server.py:126-128 | No link's source or target is the id of a node labelled -1. |
| Server.LinkCount | backend/src/server.py:125-134 | The number of links is the sum over non-noise clusters of (size − 1). |
| Server.LinkCovers | backend/src/server.py:125-134 | Every member of a non-noise cluster with at least two members is an endpoint of some link. |
| StoryPage.DateFilterUnbounded | frontend/src/StoryPage.jsx:40-41 | With no date bound, every photo passes the filter, in order. |
| StoryPage.DateFilterBounded | frontend/src/StoryPage.jsx:40-45 | With a bound set, every kept photo is dated and lies within the bounds that are set. |
| StoryPage.DateFilterKeeps | frontend/src/StoryPage.jsx:40-45 | A photo is kept iff it passes the date predicate. |
| StoryPage.RootUrl | frontend/src/StoryPage.jsx:62-71 | The URL fix keeps a missing URL missing. It makes a non-empty URL start with `http://`, `https://` or `/`, and changes it at most by a leading '/'. |
| StoryPage.RootUrlIdempotent | frontend/src/StoryPage.jsx:62-71 | Applying the URL fix twice equals applying it once. |
| StoryPage.FixPhoto | frontend/src/StoryPage.jsx:59-71 | The copy differs from the photo only in its fixed URL. |
| StoryPage.Sample | frontend/src/StoryPage.jsx:54-74 | The sampling loop draws exactly max(0, 3·xCount) photos. Each draw is a URL-fixed copy of a filtered photo. |
| StoryPage.SampledUrlsRooted | frontend/src/StoryPage.jsx:62-71 | Every sampled photo with a non-empty URL has a rooted URL. |
| StoryPage.JsRem | frontend/src/StoryPage.jsx:126-128 | JavaScript `%` with a positive divisor agrees with Dafny's for a non-negative left operand, and lies in (-b, 0] for a negative one. |
| StoryPage.NavigateFinal | frontend/src/StoryPage.jsx:123-132 | The index stays in [0, len). `next` steps forward, wrapping to 0 after the last photo; `prev` steps back, wrapping to the last photo before 0. |
| StoryPage.NavigateFinalRoundTrip | frontend/src/StoryPage.jsx:123-132 | `next` then `prev`, and `prev` then `next`, return to the start. |
| StoryPage.FixImagePath | frontend/src/StoryPage.jsx:158-178 | Absolute URLs are returned as they are. `/prepPhotos/…` gets `/static/media` in front, other `/` paths get the origin, and any other path gets the href up to its last '/'. The URL is always the tail of the result. |
| StoryPage.FixImagePathAbsolute | frontend/src/StoryPage.jsx:158-178 | On a page served over http(s), every fixed path is absolute or a static-media path. |
| StoryPage.Relocations | frontend/src/StoryPage.jsx:193-227 | The seven fallback locations for a file name, in order. |
| StoryPage.RelocationsKeepName | frontend/src/StoryPage.jsx:193-227 | Each fallback location ends in the same file name. |
| StoryPage.PathTransformations | frontend/src/StoryPage.jsx:189-228 | Eight candidates, the first being the URL itself. |
| StoryPage.PathTransformationsKeepName | frontend/src/StoryPage.jsx:193-227 | `url.split('/').pop()` is preserved by every transformation. |
| StoryPage.StoryPage.constructor | frontend/src/StoryPage.jsx:11-20 | The initial hook values: no photos, no ratings, rating phase, xCount 5. |
| StoryPage.StoryPage.GenerateRandomPhotos | frontend/src/StoryPage.jsx:30-83 | Leaves the state `Resampled`: ratings are cleared and loading is off. An empty filter result empties `photos` and keeps the phase and final story. Otherwise `photos` is exactly 3·xCount fixed copies of filtered photos, the phase is `rating` and the final story is empty. Filters and X are unchanged. |
| StoryPage.StoryPage.Refresh | frontend/src/StoryPage.jsx:24-28 | With a level, the effect leaves the state `Resampled` exactly as generateRandomPhotos does (no ratings; 3·xCount fixed filtered photos, rating phase and empty final story, or no photos when none passes the filter). Without a level nothing changes. |
| StoryPage.StoryPage.SetFilters | frontend/src/StoryPage.jsx:24-28 | Setting the dates or X stores them and runs the effect: with a level the state is `Resampled` for the new dates and X; without one, photos, ratings, phase, final story and index are unchanged. |
| StoryPage.StoryPage.HandlePhotoRate | frontend/src/StoryPage.jsx:85-95 | Each rating appends exactly one entry with `liked == (rating == 'like')`. Exactly when the count reaches 3·xCount, the final story becomes the story as written (`GenerateFinalStoryAsWritten`), shown from index 0 in the final phase; it is never empty, so the index is valid. Otherwise the phase, final story and index are unchanged. |
| StoryPage.StoryPage.HandleFinalNavigate | frontend/src/StoryPage.jsx:120-133 | The final index moves by `NavigateFinal` and stays in range. |
| StoryPage.StoryPage.HandleFinalStoryResponse | frontend/src/StoryPage.jsx:135-141 | A dislike leaves the state `Resampled` as generateRandomPhotos does, with filters and X unchanged. A like (the download) changes no modelled state. |
| FinalStory.FindIndex | frontend/src/StoryPage.jsx:103-110 | `find` by a URL some photo has returns a photo with that URL. |
| FinalStory.FindIndexFirst | frontend/src/StoryPage.jsx:103-110 | No photo before the one `find` returns has that URL: it is the first. |
| FinalStory.FindAll | frontend/src/StoryPage.jsx:103-110 | Mapping URLs back to photos gives one photo per URL, the one `find` returns for it. |
| FinalStory.LikedPart | frontend/src/StoryPage.jsx:98-103 | The liked part has min(xCount, #liked URLs) liked photos whose URLs are the liked URLs in first-appearance order. |
| FinalStory.FillerPart | frontend/src/StoryPage.jsx:107-110 | The fillers as written carry the first `slots` distinct disliked URLs. |
| FinalStory.AsWrittenSplit | frontend/src/StoryPage.jsx:105-113 | As written, the story is the liked part followed by the fillers when the liked part is short. |
| FinalStory.AsWrittenShape | frontend/src/StoryPage.jsx:97-113 | As written, there are min(xCount, #liked URLs + #disliked URLs) photos. Liked URLs come first; disliked ones are added only when fewer than xCount URLs were liked. |
| FinalStory.AsWrittenPartsDistinct | frontend/src/StoryPage.jsx:100-112 | No URL repeats within the liked part, nor within the filler part. |
| FinalStory.AsWrittenNonEmpty | frontend/src/StoryPage.jsx:97-113 | Once a photo was rated, the story as written has between 1 and xCount photos. |
| FinalStory.AsWrittenDistinctIff | frontend/src/StoryPage.jsx:100-112 | The story as written repeats no URL iff none of its filler photos (after the first min(xCount, #liked URLs)) has a liked URL; so a URL that is liked and also among the first fillers appears twice, contrary to the comment at line 100. |
| FinalStory.AsWrittenRepeatsUrl | frontend/src/StoryPage.jsx:100-112 | When every rated photo has one URL u, liked at least once and disliked at least once, a story of xCount ≥ 2 slots is exactly two photos, both with URL u. |
| FinalStory.AsWrittenDuplicateExample | frontend/src/StoryPage.jsx:100-112 | A concrete input where the story as written shows one URL twice. |
| FinalStory.FoundNotLiked | frontend/src/StoryPage.jsx:110 | A photo found by a URL no liked photo has is a disliked photo. |
| FinalStory.FreshPart | frontend/src/StoryPage.jsx:107-110 | The corrected fillers are disliked photos of the first `slots` disliked URLs that were never liked. |
| FinalStory.StorySize | frontend/src/StoryPage.jsx:97-113 | The corrected story has min(xCount, #liked URLs + #filler URLs) photos. |
| FinalStory.StoryLikedFirst | frontend/src/StoryPage.jsx:101-103 | The corrected story starts with liked photos of the liked URLs in first-appearance order. |
| FinalStory.StoryFillersAfter | frontend/src/StoryPage.jsx:105-112 | Fillers follow only when fewer than xCount URLs were liked, and they are disliked photos. |
| FinalStory.KeysCoverUrls | frontend/src/StoryPage.jsx:101-108 | Every rated URL is a liked URL or a filler URL, and each is listed once. |
| FinalStory.FinalStoryLength | frontend/src/StoryPage.jsx:97-113 | The corrected story has min(xCount, #distinct rated URLs) photos, and is non-empty when anything was rated. |
| FinalStory.FinalStoryKeys | frontend/src/StoryPage.jsx:97-113 | The corrected story's URLs are the liked URLs followed by the filler URLs, position by position, and all of them when the story is short. |
| FinalStory.FinalStoryDistinct | frontend/src/StoryPage.jsx:100 | No URL repeats in the corrected story. |
| FinalStory.FinalStoryComplete | frontend/src/StoryPage.jsx:105-112 | A corrected story shorter than xCount shows every rated URL. |
| StoryGenerator.GroupByDateRangeSpec | frontend/src/StoryGenerator.js:7-16 | The result is a subsequence of the nodes. A node is kept iff it is dated and its date lies within [start, end]. A missing start means the epoch and a missing end means now. |
| StoryGenerator.KeysOfMember | frontend/src/StoryGenerator.js:69-76 | The dictionary's keys are exactly the kept keys that occur on some node. |
| StoryGenerator.FillBuckets | frontend/src/StoryGenerator.js:69-76 | The bucketing loop maps each kept key to the nodes with that key, in input order. |
| StoryGenerator.ReadOutBuckets | frontend/src/StoryGenerator.js:78 | `Object.values(…).filter(…)` gives the big-enough buckets in ascending key order. |
| StoryGenerator.GroupBy | frontend/src/StoryGenerator.js:67-78 | The result is the grouping: the buckets of at least `minSize` nodes for kept keys, ascending by key. |
| StoryGenerator.GroupByFaces | frontend/src/StoryGenerator.js:64-79 | The groups are the face-count buckets with at least two nodes, for face counts > 0. |
| StoryGenerator.FaceGroupShape | frontend/src/StoryGenerator.js:69-78 | Every face group has at least two nodes sharing one face count > 0, in input order. |
| StoryGenerator.FaceGroupsDisjoint | frontend/src/StoryGenerator.js:69-78 | No node lies in two face groups. |
| StoryGenerator.FaceGroupMembership | frontend/src/StoryGenerator.js:69-78 | A node with faces is in some group iff another node has the same face count. |
| StoryGenerator.GrowGroup | frontend/src/StoryGenerator.js:38-53 | The inner loop for one seed computes `Grow` over all nodes: the seed first, then nodes near the seed in input order, with ids distinct and not taken before. Every node other than the seed that is near it and whose id was not taken ends up taken. The taken set grows by exactly the group's ids. |
| StoryGenerator.GroupByLocation | frontend/src/StoryGenerator.js:19-61 | The result is `LocationGroups`, the seed-by-seed greedy grouping: a node whose id is taken seeds nothing, each seed gathers `Grow`, and single-node groups are dropped while their seed stays taken. Groups are disjoint, each has at least two nodes with distinct ids, the seed comes first, and every other member comes later in the input and is near the seed. |
| StoryGenerator.StoryIdIndex | frontend/src/StoryGenerator.js:116-188 | Two stories of one indexed kind with different indices get different ids, whatever the clock reads for each. |
| StoryGenerator.StoryIdInjective | frontend/src/StoryGenerator.js:99-188 | Stories of different kinds, or with different indices within one indexed kind, get different ids, whatever the clock reads for each. |
| StoryGenerator.WellFormedIds | frontend/src/StoryGenerator.js:82-192 | The generated stories have pairwise different ids. |
| StoryGenerator.FacePhase | frontend/src/StoryGenerator.js:87-107 | There is a face story iff at least three nodes have a liked face count. It holds the first five of them. |
| StoryGenerator.LocationPhase | frontend/src/StoryGenerator.js:109-123 | Over G = `LocationGroups`, the earlier stories stay in front and each added story is a location story holding the first five nodes of the group whose index it carries, with at least three nodes (`PhaseInv`). The chosen groups are the `Greedy` ones: a group of three or more nodes without a story comes after every chosen group and was passed over only because `count` stories existed. |
| StoryGenerator.DatePhase | frontend/src/StoryGenerator.js:125-153 | As LocationPhase, over the days in order of first appearance (`DayGroups`): each added date story holds the first five nodes of the day whose index it carries, and the days chosen are the `Greedy` ones. |
| StoryGenerator.ClusterPhase | frontend/src/StoryGenerator.js:155-175 | As LocationPhase, over the buckets of non-noise cluster labels in ascending label order (`IsGrouping`): each added cluster story holds the first five nodes of the bucket whose index it carries, and the buckets chosen are the `Greedy` ones. |
| StoryGenerator.Shuffle | frontend/src/StoryGenerator.js:179-180 | The shuffled copy is a permutation of the nodes. |
| StoryGenerator.RandomPhase | frontend/src/StoryGenerator.js:177-189 | With at least three nodes, random stories fill up to exactly max(#stories, count); with fewer, nothing is added. Each added story carries its position as index and holds min(5, #nodes) nodes, each at most as often as in the input, i.e. the first five of a permutation. |
| StoryGenerator.GenerateStories | frontend/src/StoryGenerator.js:82-192 | No nodes gives no stories. Stories come in phase order, have distinct ids and hold 3–5 input nodes each. There are at most max(count, 1) of them, and at least `count` when there are three or more nodes. The first is a face story iff three nodes have a liked face count. Each id uses the clock reading taken when its story is built. |
| StoryGenerator.Bumped | frontend/src/StoryGenerator.js:205-221 | `(m[k] \|\| 0) + 1` adds one to k and leaves every other key alone. |
| StoryGenerator.FaceTallyCount | frontend/src/StoryGenerator.js:202-207 | A liked face story adds to `likedPersons[str(f)]` the number of its nodes with f faces. |
| StoryGenerator.FaceTallyOthers | frontend/src/StoryGenerator.js:202-207 | Keys that are no node's face count are unchanged. |
| StoryGenerator.IdList.Push | frontend/src/StoryGenerator.js:198-224 | `push` appends the id. |
| StoryGenerator.Tally.Bump | frontend/src/StoryGenerator.js:205-206 | Incrementing one key in place. |
| StoryGenerator.Tally.AddFaces | frontend/src/StoryGenerator.js:203-207 | The `forEach` loop leaves the tally equal to `FaceTally` of the old tally. |
| StoryGenerator.Preferences.Copy | frontend/src/StoryGenerator.js:196 | `{ ...prefs }` is a new object that shares every nested list and tally with prefs. |
| StoryGenerator.UpdatePreferences | frontend/src/StoryGenerator.js:195-228 | The story id goes onto the liked list when liked and the disliked list otherwise, and only that list grows. A liked story also updates its kind's tally (face counts, location key or day key). A disliked story leaves every tally unchanged. The shared nested objects are the ones changed. |
| StoryCard.ApiUrl | frontend/src/StoryCard.jsx:8 | The build's API URL when set and non-empty, otherwise `http://localhost:5000`. |
| StoryCard.DisplayIndex | frontend/src/StoryCard.jsx:11 | `currentFinalIndex` in final mode when supplied, else `currentIndex`. |
| StoryCard.ImageSrc | frontend/src/StoryCard.jsx:48-55 | '' for a missing or empty URL, an `http…` URL as it is, any other URL with the API URL in front. |
| StoryCard.ImageSrcAbsolute | frontend/src/StoryCard.jsx:48-55 | With an absolute API URL, the source is empty or absolute, ends with the photo's URL, and is left as it is by a second application. |
| StoryCard.Render | frontend/src/StoryCard.jsx:14-25 | Missing or empty photos give "No photos available". An out-of-range display index gives "Photo not available". Otherwise the photo at the display index is shown. |
| StoryCard.RateStep | frontend/src/StoryCard.jsx:29-31 | Advance by one unless at the last photo; stays within [0, len). |
| StoryCard.NavigateStep | frontend/src/StoryCard.jsx:39-43 | `next` and `prev` move by one within [0, len). `prev` at 0, `next` at the last index and any other direction are no-ops. |
| StoryCard.NavigateRoundTrip | frontend/src/StoryCard.jsx:39-43 | From an interior index, `next` then `prev` (and `prev` then `next`) restore it. |
| StoryCard.StoryCard.constructor | frontend/src/StoryCard.jsx:6-8 | The card mounts at index 0. |
| StoryCard.StoryCard.HandleRate | frontend/src/StoryCard.jsx:27-32 | The photo on show is reported once with the rating, then the index advances unless at the last photo. The index stays in range. |
| StoryCard.StoryCard.HandleNavigate | frontend/src/StoryCard.jsx:34-45 | In final mode with a parent handler the direction is delegated and the index is unchanged. Otherwise the index moves by `NavigateStep`. |
| StoryCard.CardShowsPhoto | frontend/src/StoryCard.jsx:14-25 | Outside final mode, a card over non-empty photos never shows an error card. |
| PrepPhotos.Toggle | frontend/src/PrepPhotosPage.jsx:22-28 | After a toggle, p is selected iff it was not before; every other photo's membership is unchanged. |
| PrepPhotos.ToggleCases | frontend/src/PrepPhotosPage.jsx:23-27 | Toggle-off removes every copy of p and keeps the rest. Toggle-on appends p at the end. |
| PrepPhotos.ToggleKeepsOthers | frontend/src/PrepPhotosPage.jsx:23-27 | With p left out, the selection is the same sequence before and after, so the other photos keep their order. |
| PrepPhotos.ToggleTwice | frontend/src/PrepPhotosPage.jsx:23-27 | Toggling an unselected p twice restores the selection exactly. |
| PrepPhotos.PrepPhotosPage.TogglePhotoSelection | frontend/src/PrepPhotosPage.jsx:22-28 | The selection becomes `Toggle` of the old one; the fetched list is unchanged. |
| PrepPhotos.PrepPhotosPage.HandleSelectAll | frontend/src/PrepPhotosPage.jsx:31-34 | The selection becomes the fetched list. |
| PrepPhotos.PrepPhotosPage.HandleClearAll | frontend/src/PrepPhotosPage.jsx:37-39 | The selection becomes empty. |
| PrepPhotos.PrepPhotosPage.Fetched | frontend/src/PrepPhotosPage.jsx:14 | The fetched list is stored; the selection is unchanged. |
| Strings.ParseIntOfIntToString | frontend/src/StoryGenerator.js:89-91 | `parseInt(n.toString())` is n, so a face count recorded by `updatePreferences` is read back by `generateStories`. |
| Strings.LastSegment | frontend/src/StoryPage.jsx:194 | `split('/').pop()` is a '/'-free tail of the URL, with a '/' just before it unless it is the whole URL. |
| Strings.LastSegmentOfPath | frontend/src/StoryPage.jsx:194 | `split('/').pop()` of `dir + "/" + name` is the name. |

## Left out

- Home.jsx (graph rendering, texture loading, camera moves), App.jsx (routing) and DateRangePicker.jsx (UI) are not part of this model.
- `downloadFinalStory` is not modelled: it fetches candidate URLs, builds a zip and saves it. Only its path candidates (`PathTransformations`) are modelled.
- The `console.log`/`console.error` calls and StoryCard's `onError` DOM manipulation are not modelled.
- EXIF parsing, `face_recognition`, DBSCAN, Flask routing, `jsonify` and the float `date_to_days` are left out. Uploads arrive already parsed, and DBSCAN, `date_to_days` and `isoformat` are function parameters. The "no features" branch (server.py:100-101) is unreachable once the 400 check has passed, so it is not modelled.
- Server.ProcessImages: the labels are whatever the DBSCAN parameter returns, with one label per row; which photos DBSCAN actually puts together is not stated.
- Server.BuildLinks: `indices.sort()` is not performed. `IndicesOfIncreasing` proves each list is already increasing, so sorting would not change it.
- StoryPage.Sample: `Math.floor(Math.random() * n)` is a nondeterministic index in [0, n). The distribution of the sample is not modelled.
- StoryPage.StoryPage.SetFilters: xCount is an integer. The source stores `Number(e.target.value)` (StoryPage.jsx:338), which may be a fraction such as 2.5. With 2.5 the sampling loop draws 8 photos and `ratedPhotos.length === 3 * xCount` never holds, so no final story is built. Fractional values are not modelled; an empty field gives 0, which is an integer and is modelled (no photos are drawn).
- StoryPage.StoryPage.GenerateRandomPhotos: `photos` is only stated to be fixed copies of filtered photos, not which ones, because the draw is random. React's batching of state updates is not modelled; each setter takes effect at once.
- StoryGenerator.Shuffle: `sort(() => 0.5 - Math.random())` is any permutation. Its (non-uniform) distribution is not modelled.
- StoryGenerator.GenerateStories: which groups become stories is stated by each phase (LocationPhase, DatePhase, ClusterPhase), not repeated in the top-level contract. Story titles (`toFixed`, `toLocaleDateString`, "Collection i") are not modelled.
- StoryGenerator.GroupByLocation: the haversine distance test `distance <= maxDistanceKm` is the `near` parameter.
- Strings.ParseInt: `parseInt` on leading white space, a '+' sign or a "0x" prefix is not modelled. The keys it reads are produced by `toString()` of integers, which never have them.
- StoryGenerator.UpdatePreferences: the location key (`toFixed(2)` of the first node's coordinates) and the day key are parameters. A liked location or date story with no nodes would throw in the source; the model requires such a story to have a node.
- StoryCard.StoryCard.HandleNavigate: the source renders no navigation arrows, so this handler is never reached from the card itself. It is modelled as the source defines it.
- StoryCard: a change of the `photos` prop while the card stays mounted keeps `currentIndex`. The model fixes the props per card instance.
- PrepPhotos: the list fetch (`axios.get`) is I/O. Its answer is passed to `Fetched`, and a failed fetch keeps the empty list.

## Findings

| source | as written | input that shows it | evidently intended | confidence | as-written member | corrected member |
|---|---|---|---|---|---|---|
| frontend/src/StoryPage.jsx:100-112 | The filler URLs are the distinct disliked URLs without removing those already used in the liked part. A photo that was liked once and disliked another time shows twice. | xCount = 2 and one photo with URL "/uploads/a.jpg" drawn for all six slots, liked once and disliked five times: the story shows that URL twice. | Per the comment at line 100, all photos in the final story are unique: fillers skip URLs already liked. | not executed | FinalStory.AsWrittenDuplicateExample | FinalStory.FinalStoryDistinct |
