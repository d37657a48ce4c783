/**
 * `displayedPhotos` of src/PhotoGrid.tsx: the album's photos that carry every
 * selected tag, stably sorted by `createdAt`, newest or oldest first; and the
 * thumbnail URL the grid asks for.
 */
module PhotoGrid {
  import opened Common
  import opened Model
  import opened Sorting

  datatype SortOrder = Newest | Oldest

  /** The filter callback: with no selection everything passes, else every selected tag must be on the photo. */
  predicate Shows(photo: Photo, selected: seq<string>) {
    if |selected| == 0 then true else forall i :: 0 <= i < |selected| ==> selected[i] in photo.tags
  }

  function ShowsTest(selected: seq<string>): Photo -> bool {
    p => Shows(p, selected)
  }

  /** `dateB - dateA` for 'newest', `dateA - dateB` for 'oldest', as "may come first". */
  function PhotoOrder(order: SortOrder): (Photo, Photo) -> bool {
    match order
    case Newest => (a: Photo, b: Photo) => a.createdAt >= b.createdAt
    case Oldest => (a: Photo, b: Photo) => a.createdAt <= b.createdAt
  }

  lemma PhotoOrderTotal(order: SortOrder)
    ensures TotalPreorder(PhotoOrder(order))
  {
  }

  function DisplayedPhotos(photos: seq<Photo>, selected: seq<string>, order: SortOrder): seq<Photo> {
    Sort(Filter(photos, ShowsTest(selected)), PhotoOrder(order))
  }

  /**
   * The grid shows exactly the photos carrying every selected tag, each as
   * often as the album has it, ordered by date in the chosen direction.
   */
  lemma DisplayedPhotosCorrect(photos: seq<Photo>, selected: seq<string>, order: SortOrder)
    ensures var r := DisplayedPhotos(photos, selected, order);
            && (forall p :: p in r <==> p in photos && forall t :: t in selected ==> t in p.tags)
            && (forall p :: multiset(r)[p] == if Shows(p, selected) then multiset(photos)[p] else 0)
            && (forall i, j :: 0 <= i < j < |r| ==>
                  if order == Newest then r[i].createdAt >= r[j].createdAt else r[i].createdAt <= r[j].createdAt)
  {
    var f := Filter(photos, ShowsTest(selected));
    PhotoOrderTotal(order);
    SortCorrect(f, PhotoOrder(order));
    forall p ensures multiset(DisplayedPhotos(photos, selected, order))[p] == if Shows(p, selected) then multiset(photos)[p] else 0 {
      FilterCount(photos, ShowsTest(selected), p);
    }
    forall p ensures Shows(p, selected) <==> forall t :: t in selected ==> t in p.tags {
    }
  }

  /** With nothing selected the grid shows the whole album, only reordered. */
  lemma EmptySelectionShowsAll(photos: seq<Photo>, order: SortOrder)
    ensures multiset(DisplayedPhotos(photos, [], order)) == multiset(photos)
  {
    FilterAll(photos, ShowsTest([]));
    PhotoOrderTotal(order);
    SortCorrect(photos, PhotoOrder(order));
  }

  /** Photos taken at the same moment keep their album order. */
  lemma SameDateKeepsAlbumOrder(photos: seq<Photo>, selected: seq<string>, order: SortOrder, p: Photo)
    ensures Equivalents(DisplayedPhotos(photos, selected, order), PhotoOrder(order), p) ==
            Equivalents(Filter(photos, ShowsTest(selected)), PhotoOrder(order), p)
  {
    PhotoOrderTotal(order);
    SortStable(Filter(photos, ShowsTest(selected)), PhotoOrder(order), p);
  }

  /** The thumbnail: `url.replace('1920/1080', '800/600')`, the first occurrence only. */
  function Thumbnail(url: string): string {
    ReplaceFirst(url, "1920/1080", "800/600")
  }

  /** A URL with the full-size marker has its first marker replaced; any other URL is used as it is. */
  lemma ThumbnailShape(url: string)
    ensures FindFirst(url, "1920/1080") < 0 ==> Thumbnail(url) == url
    ensures FindFirst(url, "1920/1080") >= 0 ==>
              var i := FindFirst(url, "1920/1080");
              && (forall j :: 0 <= j < i ==> !OccursAt(url, "1920/1080", j))
              && Thumbnail(url) == url[..i] + "800/600" + url[i + 9..]
  {
  }
}
