/** `generateFinalStory` of StoryPage.jsx: the final story is built from the rated
    photos, liked photos first (one per distinct URL), topped up with disliked ones,
    at most xCount photos in all.

    GenerateFinalStoryAsWritten is the code as it stands, and the story page uses it; it can
    show a URL twice. GenerateFinalStory is the corrected version, which keeps the promise
    of the comment on the code that no URL appears twice in the story. */
module FinalStory {
  import opened Wrappers
  import opened Seqs
  import opened Photos

  /** `ratedPhotos.filter(photo => photo.liked)`. */
  function Liked(rated: seq<Rated>): seq<Rated> {
    Filter(rated, (r: Rated) => r.liked)
  }

  /** `ratedPhotos.filter(photo => !photo.liked)`. */
  function Disliked(rated: seq<Rated>): seq<Rated> {
    Filter(rated, (r: Rated) => !r.liked)
  }

  /** The distinct URLs of the liked photos, in order of first appearance. */
  function LikedKeys(rated: seq<Rated>): seq<Option<string>> {
    Distinct(Urls(Liked(rated)))
  }

  /** The distinct URLs of the disliked photos, in order of first appearance. */
  function DislikedKeys(rated: seq<Rated>): seq<Option<string>> {
    Distinct(Urls(Disliked(rated)))
  }

  /** The position of the first photo of rs whose URL is u (`findIndex`). */
  function FindIndex(rs: seq<Rated>, u: Option<string>): (k: nat)
    requires u in Urls(rs)
    ensures k < |rs| && UrlOf(rs[k]) == u
  {
    if UrlOf(rs[0]) == u then 0
    else
      assert u in Urls(rs[1..]) by {
        var i :| 0 <= i < |rs| && Urls(rs)[i] == u;
        assert Urls(rs[1..])[i - 1] == u;
      }
      1 + FindIndex(rs[1..], u)
  }

  /** `find` returns the first photo with the URL: no earlier photo has it. */
  lemma {:induction false} FindIndexFirst(rs: seq<Rated>, u: Option<string>)
    requires u in Urls(rs)
    ensures forall j :: 0 <= j < FindIndex(rs, u) ==> UrlOf(rs[j]) != u
  {
    if UrlOf(rs[0]) != u {
      assert u in Urls(rs[1..]) by {
        var i :| 0 <= i < |rs| && Urls(rs)[i] == u;
        assert Urls(rs[1..])[i - 1] == u;
      }
      FindIndexFirst(rs[1..], u);
      forall j | 1 <= j < FindIndex(rs, u) ensures UrlOf(rs[j]) != u {
        assert rs[j] == rs[1..][j - 1];
      }
    }
  }

  /** `keys.map(url => rs.find(photo => photo.imageUrl === url))`. */
  function FindAll(rs: seq<Rated>, keys: seq<Option<string>>): (found: seq<Rated>)
    requires forall i :: 0 <= i < |keys| ==> keys[i] in Urls(rs)
    ensures |found| == |keys|
    ensures forall i :: 0 <= i < |keys| ==> found[i] == rs[FindIndex(rs, keys[i])]
  {
    seq(|keys|, i requires 0 <= i < |keys| => rs[FindIndex(rs, keys[i])])
  }

  /** A URL of a filtered list of rated photos is a URL of the whole list. */
  lemma UrlsOfFilter(rs: seq<Rated>, p: Rated -> bool, u: Option<string>)
    requires u in Urls(Filter(rs, p))
    ensures u in Urls(rs)
  {
    var f := Filter(rs, p);
    var i :| 0 <= i < |f| && Urls(f)[i] == u;
    FilterMember(rs, p, f[i]);
    var j :| 0 <= j < |rs| && rs[j] == f[i];
    assert Urls(rs)[j] == u;
  }

  /** The URL of a photo of rs satisfying p is a URL of Filter(rs, p). */
  lemma UrlInFilter(rs: seq<Rated>, p: Rated -> bool, k: nat)
    requires k < |rs| && p(rs[k])
    ensures UrlOf(rs[k]) in Urls(Filter(rs, p))
  {
    var f := Filter(rs, p);
    FilterMember(rs, p, rs[k]);
    var j :| 0 <= j < |f| && f[j] == rs[k];
    assert Urls(f)[j] == UrlOf(rs[k]);
  }

  /** Every liked URL is a URL of some liked photo. */
  lemma LikedKeysLiked(rated: seq<Rated>)
    ensures forall i :: 0 <= i < |LikedKeys(rated)| ==> LikedKeys(rated)[i] in Urls(Liked(rated))
  {
    DistinctMembers(Urls(Liked(rated)));
  }

  /** Every disliked URL is the URL of some rated photo. */
  lemma DislikedKeysRated(rated: seq<Rated>)
    ensures forall i :: 0 <= i < |DislikedKeys(rated)| ==> DislikedKeys(rated)[i] in Urls(rated)
  {
    DistinctMembers(Urls(Disliked(rated)));
    forall i | 0 <= i < |DislikedKeys(rated)| ensures DislikedKeys(rated)[i] in Urls(rated) {
      UrlsOfFilter(rated, (r: Rated) => !r.liked, DislikedKeys(rated)[i]);
    }
  }

  /** The liked part: `Array.from(new Set(likedPhotos.map(photo => photo.imageUrl)))
      .slice(0, xCount).map(url => likedPhotos.find(photo => photo.imageUrl === url))`. */
  function LikedPhotos(rated: seq<Rated>, xCount: int): seq<Rated> {
    LikedKeysLiked(rated);
    FindAll(Liked(rated), Slice(LikedKeys(rated), xCount))
  }

  /** The filler part as written: the first `slots` distinct disliked URLs, each mapped back
      to the first rated photo (liked or not) with that URL. */
  function DislikedFillers(rated: seq<Rated>, slots: int): seq<Rated> {
    DislikedKeysRated(rated);
    FindAll(rated, Slice(DislikedKeys(rated), slots))
  }

  /** `generateFinalStory` as written (StoryPage.jsx:97-113). */
  function GenerateFinalStoryAsWritten(rated: seq<Rated>, xCount: int): seq<Rated> {
    var first := LikedPhotos(rated, xCount);
    if |first| < xCount then Slice(first + DislikedFillers(rated, xCount - |first|), xCount)
    else first
  }

  /** The liked part holds one liked photo per liked URL, up to xCount of them. */
  lemma LikedPart(rated: seq<Rated>, xCount: int)
    requires xCount >= 1
    ensures var liked, first := LikedKeys(rated), LikedPhotos(rated, xCount);
      && |first| == Min(xCount, |liked|)
      && (forall i :: 0 <= i < |first| ==> first[i].liked && UrlOf(first[i]) == liked[i])
  {
  }

  /** The filler part as written holds the first `slots` distinct disliked URLs. */
  lemma FillerPart(rated: seq<Rated>, slots: int)
    requires slots >= 1
    ensures var disliked, extra := DislikedKeys(rated), DislikedFillers(rated, slots);
      && |extra| == Min(slots, |disliked|)
      && (forall i :: 0 <= i < |extra| ==> UrlOf(extra[i]) == disliked[i])
  {
  }

  /** The story as written is the liked part, followed by the fillers when the liked part is short. */
  lemma AsWrittenSplit(rated: seq<Rated>, xCount: int)
    requires xCount >= 1
    ensures var first := LikedPhotos(rated, xCount);
      GenerateFinalStoryAsWritten(rated, xCount) ==
        if |first| < xCount then first + DislikedFillers(rated, xCount - |first|) else first
  {
    var first := LikedPhotos(rated, xCount);
    if |first| < xCount {
      var story := first + DislikedFillers(rated, xCount - |first|);
      FillerPart(rated, xCount - |first|);
      LikedPart(rated, xCount);
      assert Slice(story, xCount) == story;
    }
  }

  /** The shape of the story as written: min(xCount, #liked URLs + #disliked URLs) photos,
      the liked URLs first in first-appearance order, then disliked URLs, and only when
      fewer than xCount distinct URLs were liked. */
  lemma AsWrittenShape(rated: seq<Rated>, xCount: int)
    requires xCount >= 1
    ensures var story, liked, disliked := GenerateFinalStoryAsWritten(rated, xCount), LikedKeys(rated), DislikedKeys(rated);
      && |story| == Min(xCount, |liked| + |disliked|)
      && (forall i :: 0 <= i < Min(xCount, |liked|) ==> story[i].liked && UrlOf(story[i]) == liked[i])
      && (forall i :: Min(xCount, |liked|) <= i < |story| ==>
            |liked| < xCount && UrlOf(story[i]) == disliked[i - |liked|])
  {
    var first := LikedPhotos(rated, xCount);
    LikedPart(rated, xCount);
    AsWrittenSplit(rated, xCount);
    if |first| < xCount {
      FillerPart(rated, xCount - |first|);
    }
  }

  /** Within the liked part no URL repeats, and within the disliked part none repeats. */
  lemma AsWrittenPartsDistinct(rated: seq<Rated>, xCount: int)
    requires xCount >= 1
    ensures var story, n := GenerateFinalStoryAsWritten(rated, xCount), Min(xCount, |LikedKeys(rated)|);
      && (forall i, j :: 0 <= i < j < n ==> UrlOf(story[i]) != UrlOf(story[j]))
      && (forall i, j :: n <= i < j < |story| ==> UrlOf(story[i]) != UrlOf(story[j]))
  {
    AsWrittenShape(rated, xCount);
  }

  /** The story as written is never empty once a photo was rated, and never exceeds xCount. */
  lemma AsWrittenNonEmpty(rated: seq<Rated>, xCount: int)
    requires xCount >= 1 && rated != []
    ensures 1 <= |GenerateFinalStoryAsWritten(rated, xCount)| <= xCount
  {
    AsWrittenShape(rated, xCount);
    if rated[0].liked {
      UrlInFilter(rated, (r: Rated) => r.liked, 0);
      DistinctMember(Urls(Liked(rated)), UrlOf(rated[0]));
    } else {
      UrlInFilter(rated, (r: Rated) => !r.liked, 0);
      DistinctMember(Urls(Disliked(rated)), UrlOf(rated[0]));
    }
  }

  /** A story whose first n photos follow the list `liked`, which it exhausts when more
      photos follow, and whose two parts each repeat no URL, repeats no URL exactly when no
      photo after the first n has a URL of `liked`. */
  lemma SplitNoDupIff(story: seq<Rated>, liked: seq<Option<string>>, n: nat)
    requires n <= |story| && n <= |liked| && (n < |story| ==> n == |liked|)
    requires forall i :: 0 <= i < n ==> UrlOf(story[i]) == liked[i]
    requires forall i, j :: 0 <= i < j < n ==> UrlOf(story[i]) != UrlOf(story[j])
    requires forall i, j :: n <= i < j < |story| ==> UrlOf(story[i]) != UrlOf(story[j])
    ensures NoDup(Urls(story)) <==> forall i :: n <= i < |story| ==> UrlOf(story[i]) !in liked
  {
    if forall i :: n <= i < |story| ==> UrlOf(story[i]) !in liked {
      forall i, j | 0 <= i < j < |story| ensures Urls(story)[i] != Urls(story)[j] {
        if i < n && n <= j {
          assert UrlOf(story[i]) in liked;
        }
      }
    }
    if NoDup(Urls(story)) {
      forall i | n <= i < |story| ensures UrlOf(story[i]) !in liked {
        forall l | 0 <= l < |liked| ensures liked[l] != UrlOf(story[i]) {
          assert Urls(story)[l] != Urls(story)[i];
        }
      }
    }
  }

  /** The story as written shows no URL twice exactly when none of its filler photos has a
      liked URL. */
  lemma AsWrittenDistinctIff(rated: seq<Rated>, xCount: int)
    requires xCount >= 1
    ensures var story, liked := GenerateFinalStoryAsWritten(rated, xCount), LikedKeys(rated);
      NoDup(Urls(story)) <==> forall i :: Min(xCount, |liked|) <= i < |story| ==> UrlOf(story[i]) !in liked
  {
    AsWrittenShape(rated, xCount);
    AsWrittenPartsDistinct(rated, xCount);
    SplitNoDupIff(GenerateFinalStoryAsWritten(rated, xCount), LikedKeys(rated), Min(xCount, |LikedKeys(rated)|));
  }

  /** When all photos of rs have URL u and one of them is rs[k], the distinct URLs of rs are just [u]. */
  lemma SingleUrl(rs: seq<Rated>, u: Option<string>, k: nat)
    requires forall i :: 0 <= i < |rs| ==> UrlOf(rs[i]) == u
    requires k < |rs|
    ensures Distinct(Urls(rs)) == [u]
  {
    var d := Distinct(Urls(rs));
    DistinctMembers(Urls(rs));
    assert Urls(rs)[k] == u;
    forall i | 0 <= i < |d| ensures d[i] == u {
      var j :| 0 <= j < |rs| && Urls(rs)[j] == d[i];
    }
    assert (set x | x in d) == {u};
    NoDupCard(d);
  }

  /** When every rated photo has URL u and rated[l] is liked, the liked URLs are just [u]. */
  lemma LikedKeysSingle(rated: seq<Rated>, u: Option<string>, l: nat)
    requires forall i :: 0 <= i < |rated| ==> UrlOf(rated[i]) == u
    requires l < |rated| && rated[l].liked
    ensures LikedKeys(rated) == [u]
  {
    var liked := Liked(rated);
    FilterMember(rated, (r: Rated) => r.liked, rated[l]);
    var a :| 0 <= a < |liked| && liked[a] == rated[l];
    forall i | 0 <= i < |liked| ensures UrlOf(liked[i]) == u {
      FilterMember(rated, (r: Rated) => r.liked, liked[i]);
    }
    SingleUrl(liked, u, a);
  }

  /** When every rated photo has URL u and rated[d] is disliked, the disliked URLs are just [u]. */
  lemma DislikedKeysSingle(rated: seq<Rated>, u: Option<string>, d: nat)
    requires forall i :: 0 <= i < |rated| ==> UrlOf(rated[i]) == u
    requires d < |rated| && !rated[d].liked
    ensures DislikedKeys(rated) == [u]
  {
    var disliked := Disliked(rated);
    FilterMember(rated, (r: Rated) => !r.liked, rated[d]);
    var b :| 0 <= b < |disliked| && disliked[b] == rated[d];
    forall i | 0 <= i < |disliked| ensures UrlOf(disliked[i]) == u {
      FilterMember(rated, (r: Rated) => !r.liked, disliked[i]);
    }
    SingleUrl(disliked, u, b);
  }

  /** The comment "Ensure all photos in final story are unique" does not hold as written:
      when every rated photo has URL u and u was both liked and disliked, a story of
      two or more slots shows u twice. */
  lemma AsWrittenRepeatsUrl(rated: seq<Rated>, xCount: int, u: Option<string>, l: nat, d: nat)
    requires xCount >= 2
    requires forall i :: 0 <= i < |rated| ==> UrlOf(rated[i]) == u
    requires l < |rated| && rated[l].liked
    requires d < |rated| && !rated[d].liked
    ensures var story := GenerateFinalStoryAsWritten(rated, xCount);
      |story| == 2 && UrlOf(story[0]) == u && UrlOf(story[1]) == u
  {
    LikedKeysSingle(rated, u, l);
    DislikedKeysSingle(rated, u, d);
    AsWrittenShape(rated, xCount);
  }

  /** A concrete input: one photo was sampled for all six rating slots (xCount = 2),
      liked once and disliked five times; the story as written shows it twice. */
  lemma AsWrittenDuplicateExample()
    ensures var p := Node("0", Some("/uploads/a.jpg"), None, 0, 0, 0.0, 0.0);
      var rated := [Rated(p, true)] + seq(5, _ => Rated(p, false));
      var story := GenerateFinalStoryAsWritten(rated, 2);
      |story| == 2 && UrlOf(story[0]) == UrlOf(story[1]) == p.imageUrl
  {
    var p := Node("0", Some("/uploads/a.jpg"), None, 0, 0, 0.0, 0.0);
    var rated := [Rated(p, true)] + seq(5, _ => Rated(p, false));
    AsWrittenRepeatsUrl(rated, 2, p.imageUrl, 0, 1);
  }

  /** The disliked URLs that no liked photo has, in first-appearance order. */
  function FillerKeys(rated: seq<Rated>): seq<Option<string>> {
    Filter(DislikedKeys(rated), u => u !in LikedKeys(rated))
  }

  /** Every filler URL is the URL of some rated photo. */
  lemma FillerKeysRated(rated: seq<Rated>)
    ensures forall i :: 0 <= i < |FillerKeys(rated)| ==>
      FillerKeys(rated)[i] in Urls(rated) && FillerKeys(rated)[i] !in LikedKeys(rated)
  {
    DislikedKeysRated(rated);
    var liked, filler := LikedKeys(rated), FillerKeys(rated);
    forall i | 0 <= i < |filler| ensures filler[i] in Urls(rated) {
      FilterMember(DislikedKeys(rated), u => u !in liked, filler[i]);
    }
  }

  /** The corrected filler part: the first `slots` filler URLs, each mapped back to the
      first rated photo with that URL. */
  function FreshFillers(rated: seq<Rated>, slots: int): seq<Rated> {
    FillerKeysRated(rated);
    FindAll(rated, Slice(FillerKeys(rated), slots))
  }

  /** A photo found by a URL that no liked photo has is a disliked photo. */
  lemma FoundNotLiked(rated: seq<Rated>, u: Option<string>)
    requires u in Urls(rated) && u !in LikedKeys(rated)
    ensures !rated[FindIndex(rated, u)].liked
  {
    var k := FindIndex(rated, u);
    if rated[k].liked {
      UrlInFilter(rated, (r: Rated) => r.liked, k);
      DistinctMember(Urls(Liked(rated)), u);
    }
  }

  /** The corrected filler part holds disliked photos of the first `slots` filler URLs. */
  lemma FreshPart(rated: seq<Rated>, slots: int)
    requires slots >= 1
    ensures var filler, extra := FillerKeys(rated), FreshFillers(rated, slots);
      && |extra| == Min(slots, |filler|)
      && (forall i :: 0 <= i < |extra| ==> !extra[i].liked && UrlOf(extra[i]) == filler[i])
  {
    var filler, extra := FillerKeys(rated), FreshFillers(rated, slots);
    FillerKeysRated(rated);
    forall i | 0 <= i < |extra| ensures !extra[i].liked {
      FoundNotLiked(rated, filler[i]);
    }
  }

  /** `generateFinalStory` corrected: a disliked URL already shown in the liked part is not
      used again as a filler, so every URL of the story is distinct. When the liked part is
      short it holds every liked URL, so "already shown" is "liked". */
  function GenerateFinalStory(rated: seq<Rated>, xCount: int): seq<Rated> {
    var first := LikedPhotos(rated, xCount);
    if |first| < xCount then first + FreshFillers(rated, xCount - |first|) else first
  }

  /** The corrected story has min(xCount, #liked URLs + #filler URLs) photos. */
  lemma StorySize(rated: seq<Rated>, xCount: int)
    requires xCount >= 1
    ensures |GenerateFinalStory(rated, xCount)| == Min(xCount, |LikedKeys(rated)| + |FillerKeys(rated)|)
  {
    var first := LikedPhotos(rated, xCount);
    LikedPart(rated, xCount);
    if |first| < xCount {
      FreshPart(rated, xCount - |first|);
    }
  }

  /** The corrected story starts with the liked URLs, in first-appearance order. */
  lemma StoryLikedFirst(rated: seq<Rated>, xCount: int)
    requires xCount >= 1
    ensures var story, liked := GenerateFinalStory(rated, xCount), LikedKeys(rated);
      forall i :: 0 <= i < Min(xCount, |liked|) ==> story[i].liked && UrlOf(story[i]) == liked[i]
  {
    var first := LikedPhotos(rated, xCount);
    LikedPart(rated, xCount);
    if |first| < xCount {
      FreshPart(rated, xCount - |first|);
    }
  }

  /** The photos after the liked part of a story are those of its filler part. */
  lemma TailNotLiked(story: seq<Rated>, first: seq<Rated>, extra: seq<Rated>)
    requires story == first + extra
    requires forall e :: 0 <= e < |extra| ==> !extra[e].liked
    ensures forall i :: |first| <= i < |story| ==> !story[i].liked
  {
    forall i | |first| <= i < |story| ensures !story[i].liked {
      assert story[i] == extra[i - |first|];
    }
  }

  /** After the liked part the corrected story holds only disliked photos. */
  lemma StoryFillersNotLiked(rated: seq<Rated>, xCount: int)
    requires xCount >= 1
    ensures forall i :: |LikedPhotos(rated, xCount)| <= i < |GenerateFinalStory(rated, xCount)| ==>
      !GenerateFinalStory(rated, xCount)[i].liked
  {
    var first := LikedPhotos(rated, xCount);
    var extra := if |first| < xCount then FreshFillers(rated, xCount - |first|) else [];
    if |first| < xCount {
      FreshPart(rated, xCount - |first|);
    }
    StorySplit(rated, xCount, first, extra);
    TailNotLiked(GenerateFinalStory(rated, xCount), first, extra);
  }

  /** After the liked URLs the corrected story holds disliked photos of the filler URLs. */
  lemma StoryFillersAfter(rated: seq<Rated>, xCount: int)
    requires xCount >= 1
    ensures var story, liked, filler := GenerateFinalStory(rated, xCount), LikedKeys(rated), FillerKeys(rated);
      forall i :: Min(xCount, |liked|) <= i < |story| ==>
        |liked| < xCount && !story[i].liked && UrlOf(story[i]) == filler[i - |liked|]
  {
    var story, liked, filler := GenerateFinalStory(rated, xCount), LikedKeys(rated), FillerKeys(rated);
    StorySize(rated, xCount);
    FinalStoryKeys(rated, xCount);
    LikedPart(rated, xCount);
    StoryFillersNotLiked(rated, xCount);
    forall i | Min(xCount, |liked|) <= i < |story|
      ensures |liked| < xCount && !story[i].liked && UrlOf(story[i]) == filler[i - |liked|]
    {
      assert (liked + filler)[i] == filler[i - |liked|];
    }
  }

  /** The corrected story is the liked part, followed by the fresh fillers when it is short. */
  lemma StorySplit(rated: seq<Rated>, xCount: int, first: seq<Rated>, extra: seq<Rated>)
    requires first == LikedPhotos(rated, xCount)
    requires extra == if |first| < xCount then FreshFillers(rated, xCount - |first|) else []
    ensures GenerateFinalStory(rated, xCount) == first + extra
  {
  }

  /** The liked part and the filler part of the corrected story, position by position. */
  lemma FinalStoryParts(rated: seq<Rated>, xCount: int)
    requires xCount >= 1
    ensures var story, liked, filler := GenerateFinalStory(rated, xCount), LikedKeys(rated), FillerKeys(rated);
      && |story| == Min(xCount, |liked| + |filler|)
      && (forall i :: 0 <= i < Min(xCount, |liked|) ==> story[i].liked && UrlOf(story[i]) == liked[i])
      && (forall i :: Min(xCount, |liked|) <= i < |story| ==>
            |liked| < xCount && !story[i].liked && UrlOf(story[i]) == filler[i - |liked|])
  {
    StorySize(rated, xCount);
    StoryLikedFirst(rated, xCount);
    StoryFillersAfter(rated, xCount);
  }

  /** A story made of a liked part and, when that part is short, a filler part follows
      the liked keys and then the filler keys position by position; stated over the parts. */
  lemma StoryKeys(story: seq<Rated>, first: seq<Rated>, extra: seq<Rated>,
                  liked: seq<Option<string>>, filler: seq<Option<string>>, xCount: int)
    requires |first| == Min(xCount, |liked|)
    requires forall i :: 0 <= i < |first| ==> UrlOf(first[i]) == liked[i]
    requires |first| < xCount ==> story == first + extra && |extra| == Min(xCount - |first|, |filler|)
    requires |first| < xCount ==> forall e :: 0 <= e < |extra| ==> UrlOf(extra[e]) == filler[e]
    requires xCount <= |first| ==> story == first
    ensures |story| <= |liked + filler|
    ensures |story| < xCount ==> |story| == |liked + filler|
    ensures forall i :: 0 <= i < |story| ==> UrlOf(story[i]) == (liked + filler)[i]
  {
    forall i | 0 <= i < |story| ensures UrlOf(story[i]) == (liked + filler)[i] {
      if i < |first| {
        assert story[i] == first[i] && (liked + filler)[i] == liked[i];
      } else {
        assert story[i] == extra[i - |first|] && (liked + filler)[i] == filler[i - |liked|];
      }
    }
  }

  /** A story whose URLs follow a list without repeats has no repeated URL. */
  lemma KeysNoDup(story: seq<Rated>, keys: seq<Option<string>>)
    requires |story| <= |keys|
    requires forall i :: 0 <= i < |story| ==> UrlOf(story[i]) == keys[i]
    requires NoDup(keys)
    ensures NoDup(Urls(story))
  {
  }

  /** A story whose URLs are exactly a list shows every URL of the list. */
  lemma KeysShown(story: seq<Rated>, keys: seq<Option<string>>, u: Option<string>)
    requires |story| == |keys|
    requires forall i :: 0 <= i < |story| ==> UrlOf(story[i]) == keys[i]
    requires u in keys
    ensures u in Urls(story)
  {
    var i :| 0 <= i < |keys| && keys[i] == u;
    assert Urls(story)[i] == u;
  }

  /** Every URL of the rated photos is a liked URL or a filler URL, each URL is listed once. */
  lemma KeysCoverUrls(rated: seq<Rated>)
    ensures forall i :: 0 <= i < |rated| ==> UrlOf(rated[i]) in LikedKeys(rated) + FillerKeys(rated)
    ensures forall i :: 0 <= i < |LikedKeys(rated) + FillerKeys(rated)| ==>
      (LikedKeys(rated) + FillerKeys(rated))[i] in Urls(rated)
    ensures NoDup(LikedKeys(rated) + FillerKeys(rated))
  {
    var liked, filler := LikedKeys(rated), FillerKeys(rated);
    forall i | 0 <= i < |rated| ensures UrlOf(rated[i]) in liked + filler {
      var u := UrlOf(rated[i]);
      if rated[i].liked {
        UrlInFilter(rated, (r: Rated) => r.liked, i);
        DistinctMember(Urls(Liked(rated)), u);
      } else {
        UrlInFilter(rated, (r: Rated) => !r.liked, i);
        DistinctMember(Urls(Disliked(rated)), u);
        FilterMember(DislikedKeys(rated), v => v !in liked, u);
      }
    }
    LikedKeysLiked(rated);
    FillerKeysRated(rated);
    forall i | 0 <= i < |liked| ensures liked[i] in Urls(rated) {
      UrlsOfFilter(rated, (r: Rated) => r.liked, liked[i]);
    }
    FilterNoDup(DislikedKeys(rated), v => v !in liked);
    NoDupConcat(liked, filler);
  }

  /** The corrected story has min(xCount, number of distinct rated URLs) photos, so it is
      never empty once a photo was rated. */
  lemma FinalStoryLength(rated: seq<Rated>, xCount: int)
    requires xCount >= 1
    ensures |GenerateFinalStory(rated, xCount)| == Min(xCount, |Distinct(Urls(rated))|)
    ensures rated != [] ==> |GenerateFinalStory(rated, xCount)| >= 1
  {
    FinalStoryParts(rated, xCount);
    KeysCoverUrls(rated);
    var both := LikedKeys(rated) + FillerKeys(rated);
    var d := Distinct(Urls(rated));
    DistinctMembers(Urls(rated));
    assert (set u | u in both) == (set u | u in d) by {
      forall u | u in both ensures u in d {
        var i :| 0 <= i < |both| && both[i] == u;
      }
      forall u | u in d ensures u in both {
        var i :| 0 <= i < |d| && d[i] == u;
        var j :| 0 <= j < |rated| && Urls(rated)[j] == u;
      }
    }
    NoDupCard(both);
    NoDupCard(d);
  }

  /** The corrected story follows the liked URLs and then the filler URLs, position by position. */
  lemma FinalStoryKeys(rated: seq<Rated>, xCount: int)
    requires xCount >= 1
    ensures var story, keys := GenerateFinalStory(rated, xCount), LikedKeys(rated) + FillerKeys(rated);
      && |story| <= |keys|
      && (|story| < xCount ==> |story| == |keys|)
      && (forall i :: 0 <= i < |story| ==> UrlOf(story[i]) == keys[i])
  {
    var first := LikedPhotos(rated, xCount);
    var extra := FreshFillers(rated, xCount - |first|);
    LikedPart(rated, xCount);
    if |first| < xCount {
      FreshPart(rated, xCount - |first|);
    }
    StoryKeys(GenerateFinalStory(rated, xCount), first, extra, LikedKeys(rated), FillerKeys(rated), xCount);
  }

  /** The corrected story never shows a URL twice. */
  lemma FinalStoryDistinct(rated: seq<Rated>, xCount: int)
    requires xCount >= 1
    ensures NoDup(Urls(GenerateFinalStory(rated, xCount)))
  {
    FinalStoryKeys(rated, xCount);
    KeysCoverUrls(rated);
    KeysNoDup(GenerateFinalStory(rated, xCount), LikedKeys(rated) + FillerKeys(rated));
  }

  /** A story shorter than xCount shows every rated URL. */
  lemma FinalStoryComplete(rated: seq<Rated>, xCount: int, k: nat)
    requires xCount >= 1
    requires k < |rated|
    requires |GenerateFinalStory(rated, xCount)| < xCount
    ensures UrlOf(rated[k]) in Urls(GenerateFinalStory(rated, xCount))
  {
    FinalStoryKeys(rated, xCount);
    KeysCoverUrls(rated);
    KeysShown(GenerateFinalStory(rated, xCount), LikedKeys(rated) + FillerKeys(rated), UrlOf(rated[k]));
  }
}
