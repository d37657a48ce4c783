/**
 * src/App.tsx: reading the view, album and photo out of the path, choosing
 * what to render, and the session handlers. `parts[k]` beyond the end is
 * `undefined`, modelled as `None`; every part is non-empty, so a present id
 * is always truthy.
 */
module App {
  import opened Common
  import opened Model
  import Lightbox

  /** `path.split('/').filter(Boolean)`. */
  function Segments(path: string): (parts: seq<string>)
    ensures forall i :: 0 <= i < |parts| ==> parts[i] != "" && '/' !in parts[i]
  {
    var parts := Filter(Split(path, '/'), NonEmpty);
    FilterMembers(Split(path, '/'), NonEmpty);
    assert forall i :: 0 <= i < |parts| ==> parts[i] in parts;
    parts
  }

  predicate NonEmpty(s: string) { s != "" }

  function At(parts: seq<string>, k: nat): Option<string> {
    if k < |parts| then Some(parts[k]) else None
  }

  datatype Route = Route(view: Option<string>, albumId: Option<Id>, photoId: Option<Id>)

  /** `view`, `albumId` and `photoId` of the render. */
  function ParseRoute(path: string): Route {
    var parts := Segments(path);
    var view := At(parts, 0);
    var albumId := if view == Some("album") then At(parts, 1) else None;
    var photoId := if view == Some("album") && At(parts, 2) == Some("photo") then At(parts, 3) else None;
    Route(view, albumId, photoId)
  }

  /** A photo id is only read inside an album, and any id read is non-empty and free of '/'. */
  lemma ParseRouteShape(path: string)
    ensures var r := ParseRoute(path);
            && (r.photoId.Some? ==> r.albumId.Some?)
            && (r.albumId.Some? ==> r.view == Some("album") && r.albumId.value != "" && '/' !in r.albumId.value)
            && (r.photoId.Some? ==> r.photoId.value != "" && '/' !in r.photoId.value)
  {
  }

  /** `filter(Boolean)` drops an empty first piece. */
  lemma FilterDrop(xs: seq<string>)
    requires |xs| > 0 && xs[0] == ""
    ensures Filter(xs, NonEmpty) == Filter(xs[1..], NonEmpty)
  {
  }

  /** `filter(Boolean)` keeps a non-empty first piece. */
  lemma FilterKeep(xs: seq<string>)
    requires |xs| > 0 && xs[0] != ""
    ensures Filter(xs, NonEmpty) == [xs[0]] + Filter(xs[1..], NonEmpty)
  {
  }

  /** Splitting five pieces joined by '/', none holding '/'. */
  lemma SplitFive(a: string, b: string, c: string, d: string, e: string)
    requires '/' !in a && '/' !in b && '/' !in c && '/' !in d && '/' !in e
    ensures Split(a + ['/'] + (b + ['/'] + (c + ['/'] + (d + ['/'] + e))), '/') == [a, b, c, d, e]
  {
    JoinFive(a, b, c, d, e);
    SplitJoin([a, b, c, d, e], '/');
  }

  lemma JoinFive(a: string, b: string, c: string, d: string, e: string)
    ensures Join([a, b, c, d, e], '/') == a + ['/'] + (b + ['/'] + (c + ['/'] + (d + ['/'] + e)))
  {
    JoinCons(d, [e], '/');
    JoinCons(c, [d, e], '/');
    JoinCons(b, [c, d, e], '/');
    JoinCons(a, [b, c, d, e], '/');
  }

  lemma PhotoPathSplit(albumId: Id, photoId: Id)
    requires '/' !in albumId && '/' !in photoId
    ensures Split(Lightbox.PhotoPath(albumId, photoId), '/') == ["", "album", albumId, "photo", photoId]
  {
    assert Lightbox.PhotoPath(albumId, photoId) == "" + ['/'] + ("album" + ['/'] + (albumId + ['/'] + ("photo" + ['/'] + photoId)));
    SplitFive("", "album", albumId, "photo", photoId);
  }

  lemma PhotoPathSegments(albumId: Id, photoId: Id)
    requires albumId != "" && '/' !in albumId && photoId != "" && '/' !in photoId
    ensures Segments(Lightbox.PhotoPath(albumId, photoId)) == ["album", albumId, "photo", photoId]
  {
    PhotoPathSplit(albumId, photoId);
    var xs := ["", "album", albumId, "photo", photoId];
    FilterKeep(xs[4..]);
    assert xs[4..][1..] == [];
    FilterKeep(xs[3..]);
    assert xs[3..][1..] == xs[4..];
    FilterKeep(xs[2..]);
    assert xs[2..][1..] == xs[3..];
    FilterKeep(xs[1..]);
    assert xs[1..][1..] == xs[2..];
    FilterDrop(xs);
    assert Filter(xs[1..], NonEmpty) == ["album", albumId, "photo", photoId];
  }

  /** The path `changePhoto` and the grid navigate to reads back as that album and photo. */
  lemma PhotoPathRoundTrip(albumId: Id, photoId: Id)
    requires albumId != "" && '/' !in albumId && photoId != "" && '/' !in photoId
    ensures ParseRoute(Lightbox.PhotoPath(albumId, photoId)) == Route(Some("album"), Some(albumId), Some(photoId))
  {
    PhotoPathSegments(albumId, photoId);
  }

  /** Empty segments do not count: a path with doubled or trailing slashes reads like the clean one. */
  lemma SlashesCollapse(albumId: Id)
    requires albumId != "" && '/' !in albumId
    ensures ParseRoute("//album/" + albumId + "/") == Route(Some("album"), Some(albumId), None)
  {
    var path := "//album/" + albumId + "/";
    assert path == "" + ['/'] + ("" + ['/'] + ("album" + ['/'] + (albumId + ['/'] + "")));
    SplitFive("", "", "album", albumId, "");
    var xs := ["", "", "album", albumId, ""];
    FilterDrop(xs[4..]);
    assert xs[4..][1..] == [];
    FilterKeep(xs[3..]);
    assert xs[3..][1..] == xs[4..];
    FilterKeep(xs[2..]);
    assert xs[2..][1..] == xs[3..];
    FilterDrop(xs[1..]);
    assert xs[1..][1..] == xs[2..];
    FilterDrop(xs);
    assert Segments(path) == ["album", albumId];
  }

  datatype Content = UserListView | PhotoGridView(albumId: Id) | AlbumGridView

  /** `renderContent`: the user list for an admin at /users, else the album's grid when an album is routed, else the albums. */
  function RenderContent(user: User, route: Route): (c: Content)
    ensures c == UserListView <==> route.view == Some("users") && user.role == AdminRole
    ensures c.PhotoGridView? ==> route.albumId == Some(c.albumId)
    ensures c == AlbumGridView <==>
              !(route.view == Some("users") && user.role == AdminRole) && (route.albumId.None? || route.albumId.value == "")
  {
    if route.view == Some("users") && user.role == AdminRole then UserListView
    else if route.albumId.Some? && route.albumId.value != "" then PhotoGridView(route.albumId.value)
    else AlbumGridView
  }

  /** What the app shows: the login form without a user, else the content, the admin widget and the lightbox. */
  datatype Screen =
    | LoginScreen
    | Main(content: Content, widgetRendered: bool, widgetVisible: bool, lightbox: Option<(Id, Id)>)

  datatype AppState = AppState(currentUser: Option<User>, path: string, redirectPath: string, widgetVisible: bool)

  function Render(st: AppState): (s: Screen)
    ensures st.currentUser.None? <==> s == LoginScreen
    ensures s.Main? ==> (s.widgetRendered <==> st.currentUser.value.role == AdminRole)
    ensures s.Main? ==> (s.lightbox.Some? <==> ParseRoute(st.path).photoId.Some?)
  {
    match st.currentUser
    case None => LoginScreen
    case Some(user) =>
      var route := ParseRoute(st.path);
      ParseRouteShape(st.path);
      var lightbox := if route.albumId.Some? && route.photoId.Some? then Some((route.albumId.value, route.photoId.value)) else None;
      Main(RenderContent(user, route), user.role == AdminRole, st.widgetVisible, lightbox)
  }

  /** A user who is not an admin never gets the user list or the comments widget, whatever the path. */
  lemma NonAdminRestricted(st: AppState)
    requires st.currentUser.Some? && st.currentUser.value.role != AdminRole
    ensures Render(st).Main? && Render(st).content != UserListView && !Render(st).widgetRendered
  {
  }

  function NavigateTo(st: AppState, newPath: string): AppState {
    st.(path := newPath)
  }

  /** `handleLogout`: no user, widget hidden, back at '/'. */
  function Logout(st: AppState): (r: AppState)
    ensures r.currentUser.None? && !r.widgetVisible && r.path == "/" && r.redirectPath == st.redirectPath
  {
    NavigateTo(st.(currentUser := None, widgetVisible := false), "/")
  }

  /** `handleLoginSuccess`: both branches of the conditional navigate to `redirectPath`. */
  function LoginSuccess(st: AppState, user: User): (r: AppState)
    ensures r.currentUser == Some(user) && r.path == st.redirectPath && r.widgetVisible == st.widgetVisible
  {
    NavigateTo(st.(currentUser := Some(user)), if st.redirectPath == "/" then "/" else st.redirectPath)
  }

  /**
   * `redirectPath` is never updated, so logging out and in again lands on the
   * path the app was first opened at, not on '/'.
   */
  lemma LogoutThenLogin(st: AppState, user: User)
    ensures Render(Logout(st)) == LoginScreen
    ensures LoginSuccess(Logout(st), user).path == st.redirectPath
    ensures !LoginSuccess(Logout(st), user).widgetVisible
  {
  }

  /** `handleOpenLightboxFromComment`: a found photo opens in its album's lightbox. */
  function OpenFromComment(st: AppState, photo: Option<Photo>): AppState {
    match photo
    case None => st
    case Some(p) => NavigateTo(st, Lightbox.PhotoPath(p.albumId, p.id))
  }

  /** Opening a photo from the comment feed shows that photo in its album, for ids without '/'. */
  lemma OpenFromCommentShowsPhoto(st: AppState, p: Photo)
    requires st.currentUser.Some?
    requires p.albumId != "" && '/' !in p.albumId && p.id != "" && '/' !in p.id
    ensures Render(OpenFromComment(st, Some(p))).lightbox == Some((p.albumId, p.id))
    ensures Render(OpenFromComment(st, Some(p))).content == PhotoGridView(p.albumId)
  {
    PhotoPathRoundTrip(p.albumId, p.id);
  }
}
