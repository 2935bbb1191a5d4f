/** StoryPage.jsx: the story page samples 3 * xCount photos from the first graph level
    (optionally restricted to a date range), lets the user like or dislike each, builds the
    final story from the ratings and lets the user page through it with wrap-around.
    The component's state hooks are the fields of the StoryPage class; each handler is a
    method that sets the hooks it sets in the source. */
module StoryPage {
  import opened Wrappers
  import opened Seqs
  import opened Strings
  import opened Photos
  import opened FinalStory

  /** `phase`: 'rating' or 'final'. */
  datatype Phase = Rating | Final

  /** One element of `levelsData`. */
  datatype Level = Level(nodes: seq<Node>)

  /** `levelsData[0]?.nodes || []`. */
  function AllPhotos(levels: seq<Level>): seq<Node> {
    if |levels| > 0 then levels[0].nodes else []
  }

  /** The date filter's predicate: every photo passes when neither bound is set; otherwise
      an undated photo fails and a dated one must lie within the bounds that are set. */
  predicate PassesDates(photo: Node, start: Option<Instant>, end: Option<Instant>) {
    if start.None? && end.None? then true
    else if photo.dateTime.None? then false
    else
      && (start.None? || photo.dateTime.value >= start.value)
      && (end.None? || photo.dateTime.value <= end.value)
  }

  /** `allPhotos.filter(...)` of generateRandomPhotos. */
  function DateFilter(photos: seq<Node>, start: Option<Instant>, end: Option<Instant>): seq<Node> {
    Filter(photos, (p: Node) => PassesDates(p, start, end))
  }

  /** With no date bound every photo passes the filter, in order. */
  lemma {:induction false} DateFilterUnbounded(photos: seq<Node>)
    ensures DateFilter(photos, None, None) == photos
  {
    if photos != [] {
      DateFilterUnbounded(photos[..|photos| - 1]);
      assert photos[..|photos| - 1] + [photos[|photos| - 1]] == photos;
    }
  }

  /** With a bound set, every kept photo is dated and lies within the bounds that are set. */
  lemma DateFilterBounded(photos: seq<Node>, start: Option<Instant>, end: Option<Instant>)
    requires start.Some? || end.Some?
    ensures forall i :: 0 <= i < |DateFilter(photos, start, end)| ==>
      var d := DateFilter(photos, start, end)[i].dateTime;
      && d.Some?
      && (start.Some? ==> start.value <= d.value)
      && (end.Some? ==> d.value <= end.value)
  {
  }

  /** A photo is kept exactly when it passes the date predicate. */
  lemma DateFilterKeeps(photos: seq<Node>, start: Option<Instant>, end: Option<Instant>, p: Node)
    ensures p in DateFilter(photos, start, end) <==> p in photos && PassesDates(p, start, end)
  {
    FilterMember(photos, (q: Node) => PassesDates(q, start, end), p);
  }

  /** A URL starting with `http://`, `https://` or `/`. */
  predicate Rooted(url: string) {
    StartsWith(url, "http://") || StartsWith(url, "https://") || StartsWith(url, "/")
  }

  /** The URL fix of generateRandomPhotos: a present, non-empty URL that is not rooted gets
      a leading '/'; anything else is kept. */
  function RootUrl(url: Option<string>): (r: Option<string>)
    ensures url.None? <==> r.None?
    ensures url.Some? && url.value != [] ==> Rooted(r.value)
    ensures url.Some? ==> EndsWith(r.value, url.value) && |r.value| <= |url.value| + 1
  {
    if url.Some? && url.value != [] && !Rooted(url.value) then Some("/" + url.value) else url
  }

  /** Fixing a URL a second time changes nothing. */
  lemma RootUrlIdempotent(url: Option<string>)
    ensures RootUrl(RootUrl(url)) == RootUrl(url)
  {
  }

  /** `{ ...photo }` with the URL fixed. */
  function FixPhoto(photo: Node): (r: Node)
    ensures r.(imageUrl := photo.imageUrl) == photo
    ensures r.imageUrl == RootUrl(photo.imageUrl)
  {
    photo.(imageUrl := RootUrl(photo.imageUrl))
  }

  /** Every fixed copy the sampler may produce from pool. */
  function FixedPool(pool: seq<Node>): (r: seq<Node>)
    ensures |r| == |pool|
    ensures forall i :: 0 <= i < |pool| ==> r[i] == FixPhoto(pool[i])
  {
    seq(|pool|, i requires 0 <= i < |pool| => FixPhoto(pool[i]))
  }

  /** The sampling loop: `count` draws with replacement from pool, each a fixed copy.
      The random index is a nondeterministic choice. */
  method Sample(pool: seq<Node>, count: int) returns (sample: seq<Node>)
    requires pool != []
    ensures |sample| == Max(0, count)
    ensures forall i :: 0 <= i < |sample| ==> sample[i] in FixedPool(pool)
  {
    var fixed := FixedPool(pool);
    sample := [];
    var i := 0;
    while i < count
      invariant 0 <= i == |sample| <= Max(0, count)
      invariant forall j :: 0 <= j < |sample| ==> sample[j] in fixed
    {
      var k :| 0 <= k < |pool|;
      assert fixed[k] == FixPhoto(pool[k]);
      sample := sample + [FixPhoto(pool[k])];
      i := i + 1;
    }
  }

  /** Every sampled photo carries a rooted URL when its URL is non-empty. */
  lemma SampledUrlsRooted(pool: seq<Node>, p: Node)
    requires p in FixedPool(pool)
    requires p.imageUrl.Some? && p.imageUrl.value != []
    ensures Rooted(p.imageUrl.value)
  {
    var k :| 0 <= k < |pool| && FixedPool(pool)[k] == p;
    assert p.imageUrl == RootUrl(pool[k].imageUrl);
  }

  /** `a % b` in JavaScript for a positive divisor: the remainder truncates toward zero,
      so it takes the sign of a (Dafny's `%` is Euclidean and never negative). */
  function JsRem(a: int, b: int): (r: int)
    requires b > 0
    ensures 0 <= a ==> r == a % b
    ensures a < 0 ==> -b < r <= 0
  {
    if a >= 0 then a % b else -((-a) % b)
  }

  lemma ModBelow(x: int, m: int)
    requires 0 <= x < m
    ensures x % m == x
  {
  }

  lemma ModShift(x: int, m: int)
    requires 0 <= x < m
    ensures (x + m) % m == x
  {
  }

  /** The index update of handleFinalNavigate: `next` steps forward and `prev` back, each
      wrapping around the ends of the story. */
  function NavigateFinal(index: int, len: int, next: bool): (r: int)
    requires 0 <= index < len
    ensures 0 <= r < len
    ensures next ==> r == if index == len - 1 then 0 else index + 1
    ensures !next ==> r == if index == 0 then len - 1 else index - 1
  {
    if next then
      assert (index + 1) % len == if index == len - 1 then 0 else index + 1 by {
        if index == len - 1 { ModShift(0, len); } else { ModBelow(index + 1, len); }
      }
      JsRem(index + 1, len)
    else
      assert (index - 1 + len) % len == if index == 0 then len - 1 else index - 1 by {
        if index == 0 { ModBelow(len - 1, len); } else { ModShift(index - 1, len); }
      }
      JsRem(index - 1 + len, len)
  }

  /** `next` followed by `prev`, or `prev` followed by `next`, comes back to the start. */
  lemma NavigateFinalRoundTrip(index: int, len: int)
    requires 0 <= index < len
    ensures NavigateFinal(NavigateFinal(index, len, true), len, false) == index
    ensures NavigateFinal(NavigateFinal(index, len, false), len, true) == index
  {
  }

  /** `window.location.origin` and `window.location.href` are parameters. */
  function FixImagePath(url: string, origin: string, href: string): (r: string)
    ensures EndsWith(r, url)
    ensures StartsWith(url, "http://") || StartsWith(url, "https://") ==> r == url
    ensures !StartsWith(url, "http://") && !StartsWith(url, "https://") && StartsWith(url, "/prepPhotos/") ==>
      r == "/static/media" + url
    ensures !StartsWith(url, "http://") && !StartsWith(url, "https://") && !StartsWith(url, "/prepPhotos/") ==>
      r == (if StartsWith(url, "/") then origin else Directory(href)) + url
  {
    if StartsWith(url, "http://") || StartsWith(url, "https://") then url
    else if StartsWith(url, "/prepPhotos/") then "/static/media" + url
    else if StartsWith(url, "/") then origin + url
    else Directory(href) + url
  }

  /** On a page served over http(s), every fixed path is absolute or a static-media path. */
  lemma FixImagePathAbsolute(url: string, origin: string, href: string)
    requires StartsWith(origin, "http://") || StartsWith(origin, "https://")
    requires StartsWith(href, origin)
    ensures var r := FixImagePath(url, origin, href);
      StartsWith(r, "http://") || StartsWith(r, "https://") || StartsWith(r, "/static/media/prepPhotos/")
  {
    var r := FixImagePath(url, origin, href);
    if StartsWith(url, "http://") || StartsWith(url, "https://") {
    } else if StartsWith(url, "/prepPhotos/") {
      assert r == "/static/media" + url;
      assert r[..25] == "/static/media" + url[..12];
    } else {
      var scheme := if StartsWith(origin, "http://") then "http://" else "https://";
      assert StartsWith(origin, scheme);
      assert StartsWith(href, scheme) by {
        assert href[..|scheme|] == origin[..|scheme|];
      }
      if StartsWith(url, "/") {
        StartsWithConcat(origin, url, scheme);
      } else {
        var d := Directory(href);
        assert href[|scheme| - 1] == '/';
        assert |d| >= |scheme|;
        assert StartsWith(d, scheme) by {
          assert d[..|scheme|] == href[..|scheme|];
        }
        StartsWithConcat(d, url, scheme);
      }
    }
  }

  /** `${dir}/${name}`. */
  function InDir(dir: string, name: string): string {
    dir + "/" + name
  }

  /** The seven directories `pathTransformations` tries after the URL itself, in order;
      the empty one stands for the site root (`/${filename}`). */
  function CandidateDirs(apiUrl: string): seq<string> {
    [ "/public/prepPhotos", "/assets/prepPhotos", "/static/media/prepPhotos",
      "/prepPhotos", "", "prepPhotos", apiUrl + "/prepPhotos" ]
  }

  /** The file name placed in each candidate directory, in order. */
  function Relocations(filename: string, apiUrl: string): (r: seq<string>)
    ensures |r| == 7
  {
    var dirs := CandidateDirs(apiUrl);
    seq(7, i requires 0 <= i < 7 => InDir(dirs[i], filename))
  }

  /** Every relocated path still names the same file. */
  lemma RelocationsKeepName(filename: string, apiUrl: string)
    requires forall i :: 0 <= i < |filename| ==> filename[i] != '/'
    ensures forall i :: 0 <= i < 7 ==> LastSegment(Relocations(filename, apiUrl)[i]) == filename
  {
    var r, dirs := Relocations(filename, apiUrl), CandidateDirs(apiUrl);
    forall i | 0 <= i < 7 ensures LastSegment(r[i]) == filename {
      LastSegmentOfPath(dirs[i], filename);
    }
  }

  /** `pathTransformations` applied to one URL: the URL itself, then its last path segment
      (`url.split('/').pop()`) in each candidate directory. apiUrl is the configured API URL. */
  function PathTransformations(url: string, apiUrl: string): (r: seq<string>)
    ensures |r| == 8 && r[0] == url
  {
    [url] + Relocations(LastSegment(url), apiUrl)
  }

  /** Every candidate location names the same file as the URL it came from. */
  lemma PathTransformationsKeepName(url: string, apiUrl: string)
    ensures forall i :: 0 <= i < 8 ==> LastSegment(PathTransformations(url, apiUrl)[i]) == LastSegment(url)
  {
    var f := LastSegment(url);
    var moved := Relocations(f, apiUrl);
    var t := PathTransformations(url, apiUrl);
    assert t == [url] + moved;
    RelocationsKeepName(f, apiUrl);
    forall i | 0 <= i < 8 ensures LastSegment(t[i]) == f {
      if i > 0 {
        assert t[i] == moved[i - 1];
      }
    }
  }

  /** The story page's state hooks. */
  class StoryPage {
    var levelsData: seq<Level>
    var startDate: Option<Instant>
    var endDate: Option<Instant>
    var photos: seq<Node>
    var ratedPhotos: seq<Rated>
    var finalStory: seq<Rated>
    var currentFinalIndex: int
    var phase: Phase
    var xCount: int
    var loading: bool

    /** In the final phase the index points into the final story. */
    ghost predicate Valid()
      reads this
    {
      phase == Final ==> 0 <= currentFinalIndex < |finalStory|
    }

    /** The initial `useState` values; the effect has not run yet. */
    constructor(levels: seq<Level>)
      ensures Valid()
      ensures levelsData == levels && startDate.None? && endDate.None?
      ensures photos == [] && ratedPhotos == [] && finalStory == []
      ensures currentFinalIndex == 0 && phase == Rating && xCount == 5 && !loading
    {
      levelsData := levels;
      startDate, endDate := None, None;
      photos, ratedPhotos, finalStory := [], [], [];
      currentFinalIndex := 0;
      phase := Rating;
      xCount := 5;
      loading := false;
    }

    /** The state generateRandomPhotos leaves behind, given the phase, final story and index
        it started from: no ratings, not loading, the index kept; when no photo passes the
        date filter, no photos and the phase and final story kept; otherwise 3 * xCount
        photos (none when that is not positive), each a fixed copy of a photo that passes
        the filter, the rating phase and an empty final story. */
    ghost predicate Resampled(phase0: Phase, final0: seq<Rated>, index0: int)
      reads this
    {
      && ratedPhotos == [] && !loading && currentFinalIndex == index0
      && (var pool := DateFilter(AllPhotos(levelsData), startDate, endDate);
          if pool == [] then photos == [] && phase == phase0 && finalStory == final0
          else
            && |photos| == Max(0, 3 * xCount)
            && (forall i :: 0 <= i < |photos| ==> photos[i] in FixedPool(pool))
            && phase == Rating && finalStory == [])
    }

    /** `generateRandomPhotos`: clears the ratings and draws a new sample; when no photo
        passes the date filter the photo list is emptied and the phase is kept. */
    method GenerateRandomPhotos()
      requires Valid()
      modifies this
      ensures Valid()
      ensures levelsData == old(levelsData) && startDate == old(startDate) && endDate == old(endDate)
      ensures xCount == old(xCount)
      ensures Resampled(old(phase), old(finalStory), old(currentFinalIndex))
    {
      loading := true;
      ratedPhotos := [];
      var pool := DateFilter(AllPhotos(levelsData), startDate, endDate);
      if pool == [] {
        loading := false;
        photos := [];
        return;
      }
      var sampled := Sample(pool, 3 * xCount);
      photos := sampled;
      phase := Rating;
      finalStory := [];
      loading := false;
    }

    /** The effect on `[levelsData, startDate, endDate, xCount]`: regenerate when there is a level. */
    method Refresh()
      requires Valid()
      modifies this
      ensures Valid()
      ensures levelsData == old(levelsData) && startDate == old(startDate) && endDate == old(endDate)
      ensures xCount == old(xCount)
      ensures |levelsData| > 0 ==> Resampled(old(phase), old(finalStory), old(currentFinalIndex))
      ensures |levelsData| == 0 ==> unchanged(this)
    {
      if |levelsData| > 0 {
        GenerateRandomPhotos();
      }
    }

    /** The date pickers and the X field set their hook; the effect then runs. */
    method SetFilters(start: Option<Instant>, end: Option<Instant>, x: int)
      requires Valid()
      modifies this
      ensures Valid()
      ensures startDate == start && endDate == end && xCount == x && levelsData == old(levelsData)
      ensures |levelsData| > 0 ==> Resampled(old(phase), old(finalStory), old(currentFinalIndex))
      ensures |levelsData| == 0 ==>
        && photos == old(photos) && ratedPhotos == old(ratedPhotos) && loading == old(loading)
        && finalStory == old(finalStory) && currentFinalIndex == old(currentFinalIndex) && phase == old(phase)
    {
      startDate, endDate, xCount := start, end, x;
      Refresh();
    }

    /** `handlePhotoRate`: one rated copy is appended; the rating that completes 3 * xCount
        ratings builds the final story and switches to the final phase at index 0. */
    method HandlePhotoRate(photo: Node, rating: string)
      requires Valid()
      modifies this
      ensures Valid()
      ensures ratedPhotos == old(ratedPhotos) + [Rated(photo, rating == "like")]
      ensures |ratedPhotos| == 3 * xCount ==>
        finalStory == GenerateFinalStoryAsWritten(ratedPhotos, xCount) && currentFinalIndex == 0 && phase == Final
      ensures |ratedPhotos| != 3 * xCount ==>
        finalStory == old(finalStory) && currentFinalIndex == old(currentFinalIndex) && phase == old(phase)
      ensures photos == old(photos) && xCount == old(xCount) && loading == old(loading)
      ensures levelsData == old(levelsData) && startDate == old(startDate) && endDate == old(endDate)
    {
      ratedPhotos := ratedPhotos + [Rated(photo, rating == "like")];
      if |ratedPhotos| == 3 * xCount {
        var story := GenerateFinalStoryAsWritten(ratedPhotos, xCount);
        AsWrittenNonEmpty(ratedPhotos, xCount);
        finalStory := story;
        currentFinalIndex := 0;
        phase := Final;
      }
    }

    /** `handleFinalNavigate`: step the final-story index with wrap-around. */
    method HandleFinalNavigate(direction: string)
      requires Valid() && phase == Final
      modifies this
      ensures Valid()
      ensures currentFinalIndex == NavigateFinal(old(currentFinalIndex), |old(finalStory)|, direction == "next")
      ensures finalStory == old(finalStory) && phase == old(phase) && ratedPhotos == old(ratedPhotos)
      ensures photos == old(photos) && xCount == old(xCount) && loading == old(loading)
      ensures levelsData == old(levelsData) && startDate == old(startDate) && endDate == old(endDate)
    {
      currentFinalIndex := NavigateFinal(currentFinalIndex, |finalStory|, direction == "next");
    }

    /** `handleFinalStoryResponse`: a dislike starts over with a new sample; a like starts
        the download, which is not part of this model and changes no modelled hook. */
    method HandleFinalStoryResponse(liked: bool)
      requires Valid()
      modifies this
      ensures Valid()
      ensures liked ==> unchanged(this)
      ensures !liked ==> Resampled(old(phase), old(finalStory), old(currentFinalIndex))
      ensures levelsData == old(levelsData) && startDate == old(startDate) && endDate == old(endDate)
      ensures xCount == old(xCount)
    {
      if !liked {
        GenerateRandomPhotos();
      }
    }
  }
}
