/** The photo node the frontend receives from the backend (one element of a level's
    `nodes`), and the rated copy the story page keeps. */
module Photos {
  import opened Wrappers

  /** `new Date(photo.dateTime)` as an abstract ordered instant. */
  type Instant = int

  /** One photo of the graph. `imageUrl` is None when the property is missing;
      `dateTime` is None when the backend found no EXIF date (it sends null). */
  datatype Node = Node(
    id: string,
    imageUrl: Option<string>,
    dateTime: Option<Instant>,
    faceCount: int,
    cluster: int,
    lat: real,
    lon: real)

  /** `{ ...photo, liked: rating === 'like' }`. */
  datatype Rated = Rated(photo: Node, liked: bool)

  /** The URL a rated photo is deduplicated by. */
  function UrlOf(r: Rated): Option<string> {
    r.photo.imageUrl
  }

  /** `photos.map(photo => photo.imageUrl)`. */
  function Urls(rs: seq<Rated>): (us: seq<Option<string>>)
    ensures |us| == |rs|
    ensures forall i :: 0 <= i < |rs| ==> us[i] == UrlOf(rs[i])
  {
    seq(|rs|, i requires 0 <= i < |rs| => UrlOf(rs[i]))
  }
}
