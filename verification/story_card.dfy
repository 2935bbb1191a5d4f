/** StoryCard.jsx: the card that shows one photo of a story at a time. The `currentIndex`
    state hook is a field of the StoryCard class and the props are its constant fields;
    the two callbacks are modelled by what the handlers pass to them, returned as results. */
module StoryCard {
  import opened Wrappers
  import opened Strings
  import opened Photos

  /** The API origin used when the build sets none. */
  const DefaultApiUrl := "http://localhost:5000"

  /** `import.meta.env.VITE_REACT_APP_API_URL || "http://localhost:5000"`. */
  function ApiUrl(env: Option<string>): (r: string)
    ensures env.Some? && env.value != [] ==> r == env.value
    ensures env.None? || env.value == [] ==> r == DefaultApiUrl
  {
    match env
    case Some(u) => if u != [] then u else DefaultApiUrl
    case None => DefaultApiUrl
  }

  /** The index of the photo on show: the parent's index in final mode when it supplies
      one, the card's own index otherwise. */
  function DisplayIndex(isFinal: bool, currentFinalIndex: Option<int>, currentIndex: int): (r: int)
    ensures isFinal && currentFinalIndex.Some? ==> r == currentFinalIndex.value
    ensures !isFinal || currentFinalIndex.None? ==> r == currentIndex
  {
    if isFinal && currentFinalIndex.Some? then currentFinalIndex.value else currentIndex
  }

  /** `getImageSrc`: '' for a missing or empty URL, an absolute URL as it is, and any other
      URL prefixed with the API origin. */
  function ImageSrc(imageUrl: Option<string>, apiUrl: string): (r: string)
    ensures imageUrl.None? || imageUrl.value == [] ==> r == []
    ensures imageUrl.Some? && imageUrl.value != [] && StartsWith(imageUrl.value, "http") ==> r == imageUrl.value
    ensures imageUrl.Some? && imageUrl.value != [] && !StartsWith(imageUrl.value, "http") ==> r == apiUrl + imageUrl.value
  {
    match imageUrl
    case None => []
    case Some(u) =>
      if u == [] then []
      else if StartsWith(u, "http") then u
      else apiUrl + u
  }

  /** With an absolute API origin every source is empty or absolute, keeps the photo's URL as
      its tail, and is a fixed point of ImageSrc. */
  lemma ImageSrcAbsolute(imageUrl: Option<string>, apiUrl: string)
    requires StartsWith(apiUrl, "http")
    ensures var r := ImageSrc(imageUrl, apiUrl);
      && (r == [] || StartsWith(r, "http"))
      && (imageUrl.Some? ==> EndsWith(r, imageUrl.value))
      && ImageSrc(Some(r), apiUrl) == r
  {
    if imageUrl.Some? && imageUrl.value != [] && !StartsWith(imageUrl.value, "http") {
      var u := imageUrl.value;
      StartsWithConcat(apiUrl, u, "http");
      assert (apiUrl + u)[|apiUrl + u| - |u|..] == u;
    } else if imageUrl.Some? && imageUrl.value != [] {
      assert imageUrl.value[|imageUrl.value| - |imageUrl.value|..] == imageUrl.value;
    }
  }

  /** What the component renders: an error card, or the photo with its image source. */
  datatype View = ErrorCard(message: string) | PhotoCard(photo: Node, src: string)

  /** The render guards: no photos, or no photo at the display index, give an error card. */
  function Render(photos: Option<seq<Node>>, displayIndex: int, apiUrl: string): (v: View)
    ensures v.ErrorCard? <==> photos.None? || photos.value == [] || !(0 <= displayIndex < |photos.value|)
    ensures photos.None? || photos.value == [] ==> v == ErrorCard("No photos available")
    ensures photos.Some? && photos.value != [] && !(0 <= displayIndex < |photos.value|) ==> v == ErrorCard("Photo not available")
    ensures v.PhotoCard? ==> v.photo == photos.value[displayIndex] && v.src == ImageSrc(v.photo.imageUrl, apiUrl)
  {
    match photos
    case None => ErrorCard("No photos available")
    case Some(ps) =>
      if ps == [] then ErrorCard("No photos available")
      else if !(0 <= displayIndex < |ps|) then ErrorCard("Photo not available")
      else PhotoCard(ps[displayIndex], ImageSrc(ps[displayIndex].imageUrl, apiUrl))
  }

  /** The index after `handleRate`: one further unless at the last photo. */
  function RateStep(index: int, len: int): (r: int)
    ensures 0 <= index < len ==> 0 <= r < len
    ensures index < len - 1 ==> r == index + 1
    ensures len - 1 <= index ==> r == index
  {
    if index < len - 1 then index + 1 else index
  }

  /** The index after a non-final `handleNavigate`: 'next' and 'prev' move by one without
      leaving [0, len), any other direction does nothing. */
  function NavigateStep(index: int, len: int, direction: string): (r: int)
    ensures 0 <= index < len ==> 0 <= r < len
    ensures direction == "next" && index < len - 1 ==> r == index + 1
    ensures direction == "prev" && index > 0 ==> r == index - 1
    ensures direction == "next" && len - 1 <= index ==> r == index
    ensures direction == "prev" && index <= 0 ==> r == index
    ensures direction != "next" && direction != "prev" ==> r == index
  {
    if direction == "next" && index < len - 1 then index + 1
    else if direction == "prev" && index > 0 then index - 1
    else index
  }

  /** From an interior index, 'next' then 'prev' (and 'prev' then 'next') come back. */
  lemma NavigateRoundTrip(index: int, len: int)
    ensures 0 <= index < len - 1 ==> NavigateStep(NavigateStep(index, len, "next"), len, "prev") == index
    ensures 0 < index < len ==> NavigateStep(NavigateStep(index, len, "prev"), len, "next") == index
  {
  }

  class StoryCard {
    var currentIndex: int
    const photos: Option<seq<Node>>
    const isFinal: bool
    const hasFinalNavigate: bool
    const currentFinalIndex: Option<int>
    const apiUrl: string

    /** The index never leaves the photos. */
    ghost predicate Valid()
      reads this
    {
      0 <= currentIndex && (photos.Some? && photos.value != [] ==> currentIndex < |photos.value|)
    }

    /** The card as it renders now. */
    function View(): View
      reads this
    {
      Render(photos, DisplayIndex(isFinal, currentFinalIndex, currentIndex), apiUrl)
    }

    /** Mounting: `useState(0)`. */
    constructor(photos: Option<seq<Node>>, isFinal: bool, hasFinalNavigate: bool,
                currentFinalIndex: Option<int>, env: Option<string>)
      ensures Valid()
      ensures currentIndex == 0
      ensures this.photos == photos && this.isFinal == isFinal && this.hasFinalNavigate == hasFinalNavigate
      ensures this.currentFinalIndex == currentFinalIndex && apiUrl == ApiUrl(env)
    {
      currentIndex := 0;
      this.photos := photos;
      this.isFinal := isFinal;
      this.hasFinalNavigate := hasFinalNavigate;
      this.currentFinalIndex := currentFinalIndex;
      apiUrl := ApiUrl(env);
    }

    /** `handleRate`: report the photo on show to `onRatePhoto`, then advance unless at the
        last photo. The handler exists only when the card shows a photo. */
    method HandleRate(liked: bool) returns (reported: Node, rating: bool)
      requires Valid() && View().PhotoCard?
      modifies this
      ensures Valid()
      ensures reported == old(View()).photo && rating == liked
      ensures currentIndex == RateStep(old(currentIndex), |photos.value|)
    {
      reported, rating := View().photo, liked;
      if currentIndex < |photos.value| - 1 {
        currentIndex := currentIndex + 1;
      }
    }

    /** `handleNavigate`: in final mode with a parent handler the direction is passed to
        `onFinalNavigate` and the card's index stays; otherwise the index steps. */
    method HandleNavigate(direction: string) returns (delegated: Option<string>)
      requires Valid() && View().PhotoCard?
      modifies this
      ensures Valid()
      ensures isFinal && hasFinalNavigate ==> delegated == Some(direction) && currentIndex == old(currentIndex)
      ensures !(isFinal && hasFinalNavigate) ==>
        delegated == None && currentIndex == NavigateStep(old(currentIndex), |photos.value|, direction)
    {
      if isFinal && hasFinalNavigate {
        delegated := Some(direction);
      } else {
        delegated := None;
        if direction == "next" && currentIndex < |photos.value| - 1 {
          currentIndex := currentIndex + 1;
        } else if direction == "prev" && currentIndex > 0 {
          currentIndex := currentIndex - 1;
        }
      }
    }
  }

  /** Outside final mode a card over non-empty photos always shows a photo: its index never
      leaves the list under rating and navigation. */
  lemma CardShowsPhoto(card: StoryCard)
    requires card.Valid() && !card.isFinal && card.photos.Some? && card.photos.value != []
    ensures card.View().PhotoCard?
    ensures card.View().photo == card.photos.value[card.currentIndex]
  {
  }
}
