/** The handlers of `controllers/portfolioController.js`.  They run inside
    `asyncHandler`, so their refusals are the typed errors they throw, and
    an error from SQLite travels on unchanged.  Route ids go through
    `parseInt`; one that does not parse matches no row. */
module PortfolioController {
  import opened Common
  import opened Schema
  import opened Queries
  import Text
  import Users
  import Projects
  import Proposals
  import Reviews
  import Portfolios

  /** The error SQLite raises for a NULL `LIMIT` or `OFFSET`. */
  const Mismatch := Failure("datatype mismatch")

  const UpdateDenied := "Not authorized to update this portfolio item"
  const DeleteDenied := "Not authorized to delete this portfolio item"

  /** `getAllPortfolioItems`: `limit` and `offset` default to 50 and 0. */
  function GetAllPortfolioItems(items: Portfolios.PortfolioTable, accounts: map<nat, Users.User>,
                                category: Option<string>, limit: Option<string>, offset: Option<string>)
    : (r: Result<seq<Portfolios.Item>>)
    reads items
    ensures r.Ok? <==> Text.IntParam(limit, 50).Some? && Text.IntParam(offset, 0).Some?
    ensures r.Err? ==> r.error == Mismatch
    ensures r.Ok? ==>
      (Text.IntParam(limit, 50).value >= 0 ==> |r.value| <= Text.IntParam(limit, 50).value)
      && (forall i :: i in r.value ==>
            i in items.rows.Values && Portfolios.Listed(accounts, i) && (Truthy(category) ==> i.category == category))
      && IsWindow(r.value, Rows(items.rows, items.nextId), Portfolios.InCategory(accounts, category),
                  Portfolios.NewestFirst, Text.IntParam(limit, 50).value, Text.IntParam(offset, 0).value)
  {
    var l := Text.IntParam(limit, 50);
    var o := Text.IntParam(offset, 0);
    if l.None? || o.None? then Err(Mismatch) else Ok(items.FindAll(accounts, l.value, o.value, category))
  }

  /** `getAllEditors`: `limit` and `offset` default to 20 and 0. */
  function GetAllEditors(users: Users.UserTable, items: Portfolios.PortfolioTable, projects: Projects.ProjectTable,
                         limit: Option<string>, offset: Option<string>): (r: Result<seq<Portfolios.EditorListing>>)
    reads users, items, projects
    ensures r.Ok? <==> Text.IntParam(limit, 20).Some? && Text.IntParam(offset, 0).Some?
    ensures r.Err? ==> r.error == Mismatch
    ensures r.Ok? ==>
      (Text.IntParam(limit, 20).value >= 0 ==> |r.value| <= Text.IntParam(limit, 20).value)
      && (forall i, j :: 0 <= i < j < |r.value| ==> r.value[i].completedProjects >= r.value[j].completedProjects)
      && exists w :: IsWindow(w, Rows(users.rows, users.nextId), Portfolios.EditorOnly(),
                              Portfolios.MostCompletedFirst(projects.rows), Text.IntParam(limit, 20).value,
                              Text.IntParam(offset, 0).value)
                     && r.value == Portfolios.Listings(w, items.rows, projects.rows)
  {
    var l := Text.IntParam(limit, 20);
    var o := Text.IntParam(offset, 0);
    if l.None? || o.None? then Err(Mismatch)
    else Ok(Portfolios.AllEditors(users, items.rows, projects.rows, l.value, o.value))
  }

  /** `getEditorProfile`: a profile exists only for an editor. */
  function GetEditorProfile(users: Users.UserTable, items: Portfolios.PortfolioTable, projects: Projects.ProjectTable,
                            proposals: Proposals.ProposalTable, editorId: string): (r: Result<Portfolios.Profile>)
    requires items.Valid()
    reads users, items, projects, proposals
    ensures r.Ok? <==>
      var id := Text.ParseInt(editorId);
      id.Some? && id.value >= 0 && id.value in users.rows && users.rows[id.value].role == Editor
    ensures r.Err? ==> r.error == NotFoundError("Editor not found")
    ensures r.Ok? ==> 0 <= r.value.stats.successRate <= 100
  {
    var id := Text.ParseInt(editorId);
    var profile := if id.None? then None
                   else Portfolios.GetEditorProfile(users, items, projects.rows, proposals.rows, id.value);
    if profile.None? then Err(NotFoundError("Editor not found")) else Ok(profile.value)
  }

  /** `getMyPortfolio`: only editors have a portfolio. */
  function GetMyPortfolio(items: Portfolios.PortfolioTable, accounts: map<nat, Users.User>, callerId: int, role: Role)
    : (r: Result<seq<Portfolios.Item>>)
    requires items.Valid()
    reads items
    ensures r.Err? <==> role != Editor
    ensures r.Err? ==> r.error == AuthorizationError("Only editors can have portfolios")
    ensures r.Ok? ==> forall i :: i in r.value <==>
      i in items.rows.Values && i.editorId == callerId && Portfolios.Listed(accounts, i)
    ensures r.Ok? ==>
      Queries.Listing(r.value, Rows(items.rows, items.nextId), Portfolios.ByEditor(accounts, callerId),
                      Portfolios.NewestFirst)
  {
    if role != Editor then Err(AuthorizationError("Only editors can have portfolios"))
    else Ok(items.FindByEditorId(accounts, callerId))
  }

  /** `x?.trim() || null`: a value that is empty once trimmed becomes
      NULL. */
  function TrimOrNull(x: Option<string>): (r: Option<string>)
    ensures r.Some? <==> x.Some? && Text.Trim(x.value) != ""
    ensures r.Some? ==> r.value == Text.Trim(x.value)
  {
    if x.Some? && Text.Trim(x.value) != "" then Some(Text.Trim(x.value)) else None
  }

  /** `x?.trim()`: a missing value stays missing. */
  function TrimOpt(x: Option<string>): (r: Option<string>)
    ensures r.Some? <==> x.Some?
    ensures r.Some? ==> r.value == Text.Trim(x.value)
  {
    if x.Some? then Some(Text.Trim(x.value)) else None
  }

  /** `createPortfolioItem`: an editor's item with a title and a
      description is stored with both trimmed, the optional texts trimmed
      or NULL when blank, and the tags or `[]`. */
  method CreatePortfolioItem(items: Portfolios.PortfolioTable, callerId: int, role: Role, title: Option<string>,
                             description: Option<string>, category: Option<string>, thumbnailUrl: Option<string>,
                             videoUrl: Option<string>, tags: Option<seq<string>>, now: Time)
    returns (r: Result<Portfolios.Item>)
    requires items.Valid()
    modifies items
    ensures items.Valid()
    ensures role != Editor ==> r == Err(AuthorizationError("Only editors can create portfolio items"))
    ensures role == Editor && (!Truthy(title) || !Truthy(description)) ==>
      r == Err(ValidationError("Title and description are required"))
    ensures r.Ok? <==> role == Editor && Truthy(title) && Truthy(description)
    ensures r.Err? ==> items.rows == old(items.rows)
    ensures r.Ok? ==>
      r.value == Portfolios.Item(old(items.nextId), callerId, Text.Trim(title.value), Text.Trim(description.value),
                                 TrimOrNull(category), TrimOrNull(thumbnailUrl), TrimOrNull(videoUrl),
                                 tags.GetOr([]), 0, now, now)
      && items.rows == old(items.rows)[r.value.id := r.value]
  {
    if role != Editor {
      return Err(AuthorizationError("Only editors can create portfolio items"));
    }
    if !Truthy(title) || !Truthy(description) {
      return Err(ValidationError("Title and description are required"));
    }
    var item := items.Create(callerId, Text.Trim(title.value), Text.Trim(description.value), TrimOrNull(category),
                             TrimOrNull(thumbnailUrl), TrimOrNull(videoUrl), Some(tags.GetOr([])), now);
    return Ok(item);
  }

  /** `getPortfolioItem`. */
  function GetPortfolioItem(items: Portfolios.PortfolioTable, accounts: map<nat, Users.User>, id: string)
    : (r: Result<Portfolios.Item>)
    reads items
    ensures r.Ok? <==> Text.ParseInt(id).Some? && items.FindById(accounts, Text.ParseInt(id).value).Some?
    ensures r.Ok? ==> r.value == items.rows[Text.ParseInt(id).value]
    ensures r.Err? ==> r.error == NotFoundError("Portfolio item not found")
  {
    var n := Text.ParseInt(id);
    var item := if n.None? then None else items.FindById(accounts, n.value);
    if item.None? then Err(NotFoundError("Portfolio item not found")) else Ok(item.value)
  }

  /** The checks `updatePortfolioItem` and `deletePortfolioItem` share:
      the item must exist, then belong to the caller. */
  function OwnerGuard(items: Portfolios.PortfolioTable, accounts: map<nat, Users.User>, callerId: int, id: string,
                      denied: string): (r: Outcome)
    reads items
    ensures GetPortfolioItem(items, accounts, id).Err? ==> r == Fail(NotFoundError("Portfolio item not found"))
    ensures GetPortfolioItem(items, accounts, id).Ok? ==>
      (r.Pass? <==> GetPortfolioItem(items, accounts, id).value.editorId == callerId)
    ensures r.Fail? && GetPortfolioItem(items, accounts, id).Ok? ==> r.error == AuthorizationError(denied)
  {
    match GetPortfolioItem(items, accounts, id)
    case Err(e) => Fail(e)
    case Ok(item) => if item.editorId != callerId then Fail(AuthorizationError(denied)) else Pass
  }

  /** `updatePortfolioItem`: only the owning editor may change an item;
      given texts are trimmed, omitted fields keep their values. */
  method UpdatePortfolioItem(items: Portfolios.PortfolioTable, accounts: map<nat, Users.User>, callerId: int,
                             id: string, title: Option<string>, description: Option<string>,
                             category: Option<string>, thumbnailUrl: Option<string>, videoUrl: Option<string>,
                             tags: Option<seq<string>>, now: Time)
    returns (r: Outcome)
    requires items.Valid()
    modifies items
    ensures items.Valid()
    ensures r == old(OwnerGuard(items, accounts, callerId, id, UpdateDenied))
    ensures r.Fail? ==> items.rows == old(items.rows)
    ensures r.Pass? ==>
      var k := Text.ParseInt(id).value;
      var x := old(items.rows[k]);
      items.rows == old(items.rows)[k := x.(title := Portfolios.Coalesce(TrimOpt(title), x.title),
                                            description := Portfolios.Coalesce(TrimOpt(description), x.description),
                                            category := Portfolios.CoalesceOpt(TrimOpt(category), x.category),
                                            thumbnailUrl := Portfolios.CoalesceOpt(TrimOpt(thumbnailUrl), x.thumbnailUrl),
                                            videoUrl := Portfolios.CoalesceOpt(TrimOpt(videoUrl), x.videoUrl),
                                            tags := Portfolios.Coalesce(tags, x.tags), updatedAt := now)]
      && items.rows[k].editorId == callerId
  {
    r := OwnerGuard(items, accounts, callerId, id, UpdateDenied);
    if r.Fail? {
      return;
    }
    var _ := items.Update(Text.ParseInt(id).value, TrimOpt(title), TrimOpt(description), TrimOpt(category),
                          TrimOpt(thumbnailUrl), TrimOpt(videoUrl), tags, now);
  }

  /** `deletePortfolioItem`: only the owning editor may remove an item. */
  method DeletePortfolioItem(items: Portfolios.PortfolioTable, accounts: map<nat, Users.User>, callerId: int,
                             id: string)
    returns (r: Outcome)
    requires items.Valid()
    modifies items
    ensures items.Valid()
    ensures r == old(OwnerGuard(items, accounts, callerId, id, DeleteDenied))
    ensures r.Fail? ==> items.rows == old(items.rows)
    ensures r.Pass? ==> items.rows == old(items.rows) - {Text.ParseInt(id).value as nat}
  {
    r := OwnerGuard(items, accounts, callerId, id, DeleteDenied);
    if r.Fail? {
      return;
    }
    var _ := items.Delete(Text.ParseInt(id).value);
  }

  // -------------------------------------------------------------- searches

  /** `x ? parse(x) : null` for a numeric bound. */
  function BoundParam<T>(s: Option<string>, parse: string -> Option<T>): (r: Portfolios.Bound<T>)
    ensures r.NoBound? <==> !Truthy(s)
    ensures r.AtLeast? ==> r.bound == parse(s.value)
  {
    if Truthy(s) then Portfolios.AtLeast(parse(s.value)) else Portfolios.NoBound
  }

  /** The query string of `searchEditors`, every parameter as sent. */
  datatype EditorQuery = EditorQuery(q: Option<string>, minRating: Option<string>, minProjects: Option<string>,
                                     hasPortfolio: Option<string>, category: Option<string>,
                                     sortBy: Option<string>, sortOrder: Option<string>, page: Option<string>,
                                     limit: Option<string>)

  /** `hasPortfolio === 'true'` and the parsed bounds; `parseFloat` is
      given by the caller. */
  function EditorCriteria(query: EditorQuery, parseFloat: string -> Option<real>): (r: Portfolios.EditorCriteria)
    ensures r.hasPortfolio <==> query.hasPortfolio == Some("true")
  {
    Portfolios.EditorCriteria(query.q, BoundParam(query.minRating, parseFloat),
                              BoundParam(query.minProjects, Text.ParseInt), query.hasPortfolio == Some("true"),
                              query.category)
  }

  /** The answer of `searchEditors`. */
  datatype EditorsPage = EditorsPage(page: int, limit: int, total: nat, totalPages: JsNumber,
                                     categories: map<string, nat>, count: nat,
                                     editors: seq<Portfolios.EditorMatch>)

  /** `searchEditors`: `page` and `limit` default to 1 and 20, `sortBy` to
      `completed_projects` and `sortOrder` to `DESC`. */
  function SearchEditors(users: Users.UserTable, items: Portfolios.PortfolioTable, projects: Projects.ProjectTable,
                         reviews: Reviews.ReviewTable, query: EditorQuery, like: (string, string) -> bool,
                         parseFloat: string -> Option<real>): (r: Result<EditorsPage>)
    reads users, items, projects, reviews
    ensures r.Ok? <==> Text.IntParam(query.page, 1).Some? && Text.IntParam(query.limit, 20).Some?
    ensures r.Err? ==> r.error == Mismatch
    ensures r.Ok? ==>
      var c := EditorCriteria(query, parseFloat);
      var scan := Rows(reviews.rows, reviews.nextId);
      var sortBy := query.sortBy.GetOr("completed_projects");
      var sortOrder := query.sortOrder.GetOr("DESC");
      r.value.page == Text.IntParam(query.page, 1).value && r.value.limit == Text.IntParam(query.limit, 20).value
      && r.value.total == Portfolios.SearchEditorsCount(users, items.rows, projects.rows, scan, c, like)
      && r.value.totalPages == TotalPages(r.value.total, Some(r.value.limit))
      && r.value.categories == items.Categories()
      && r.value.count == |r.value.editors|
      && (forall i :: 0 <= i < |r.value.editors| ==>
            exists u :: u in users.rows.Values && Portfolios.EditorMatches(u, c, items.rows, projects.rows, scan, like)
                        && r.value.editors[i] == Portfolios.Match(u, items.rows, projects.rows, scan))
      && Sorted(r.value.editors, Portfolios.MatchKey(sortBy, sortOrder))
      && exists w :: IsWindow(w, Rows(users.rows, users.nextId),
                              Portfolios.EditorFilter(c, items.rows, projects.rows, scan, like),
                              Portfolios.EditorSortKey(sortBy, sortOrder, items.rows, projects.rows, scan),
                              r.value.limit, (r.value.page - 1) * r.value.limit)
                     && r.value.editors == Portfolios.Matches(w, items.rows, projects.rows, scan)
  {
    var p := Text.IntParam(query.page, 1);
    var l := Text.IntParam(query.limit, 20);
    var offset := Offset(p, l);
    if offset.None? then Err(Mismatch)
    else
      var c := EditorCriteria(query, parseFloat);
      var scan := Rows(reviews.rows, reviews.nextId);
      var found := Portfolios.SearchEditors(users, items.rows, projects.rows, scan, c, like,
                                            query.sortBy.GetOr("completed_projects"), query.sortOrder.GetOr("DESC"),
                                            l.value, offset.value);
      var total := Portfolios.SearchEditorsCount(users, items.rows, projects.rows, scan, c, like);
      Ok(EditorsPage(p.value, l.value, total, TotalPages(total, l), items.Categories(), |found|, found))
  }

  /** Search and count share one filter, so a page holds at most `limit`
      editors and every page numbered from 1 to `totalPages` holds at
      least one. */
  lemma EditorPagesCover(users: Users.UserTable, items: Portfolios.PortfolioTable, projects: Projects.ProjectTable,
                         reviews: Reviews.ReviewTable, query: EditorQuery, like: (string, string) -> bool,
                         parseFloat: string -> Option<real>)
    ensures var r := SearchEditors(users, items, projects, reviews, query, like, parseFloat);
      r.Ok? && r.value.limit >= 0 ==> r.value.count <= r.value.limit
    ensures var r := SearchEditors(users, items, projects, reviews, query, like, parseFloat);
      r.Ok? && r.value.limit > 0 && r.value.totalPages.Finite? && 1 <= r.value.page <= r.value.totalPages.value ==>
      r.value.count > 0
  {
    var r := SearchEditors(users, items, projects, reviews, query, like, parseFloat);
    if r.Ok? && r.value.limit > 0 {
      TotalPagesCovers(r.value.total, r.value.limit, r.value.page);
    }
  }

  /** `tags.split(',').map(t => t.trim())`. */
  function TrimAll(parts: seq<string>): (r: seq<string>)
    ensures |r| == |parts|
    ensures forall i :: 0 <= i < |parts| ==> r[i] == Text.Trim(parts[i])
  {
    seq(|parts|, i requires 0 <= i < |parts| => Text.Trim(parts[i]))
  }

  /** The tag list of `searchPortfolioItems`: one trimmed piece per
      comma-separated part when `tags` is truthy, so never an empty list;
      otherwise no tag filter. */
  function TagList(tags: Option<string>): (r: Option<seq<string>>)
    ensures r.Some? <==> Truthy(tags)
    ensures r.Some? ==>
      |r.value| == |Text.Split(tags.value, ',')| == Text.Occurrences(tags.value, ',') + 1
      && forall i :: 0 <= i < |r.value| ==>
        r.value[i] == Text.Trim(Text.Split(tags.value, ',')[i]) && ',' !in r.value[i]
  {
    if Truthy(tags) then
      var parts := Text.Split(tags.value, ',');
      Text.SplitSpec(tags.value, ',');
      TrimWithin(parts);
      Some(TrimAll(parts))
    else None
  }

  /** Trimming keeps a piece inside its original, so no comma appears. */
  lemma TrimWithin(parts: seq<string>)
    ensures forall i :: 0 <= i < |parts| && ',' !in parts[i] ==> ',' !in Text.Trim(parts[i])
  {
    forall i | 0 <= i < |parts| && ',' !in parts[i] ensures ',' !in Text.Trim(parts[i]) {
      Text.TrimKeepsChars(parts[i]);
    }
  }

  /** The query string of `searchPortfolioItems`, every parameter as sent. */
  datatype ItemQuery = ItemQuery(q: Option<string>, category: Option<string>, editorId: Option<string>,
                                 tags: Option<string>, sortBy: Option<string>, sortOrder: Option<string>,
                                 page: Option<string>, limit: Option<string>)

  function ItemCriteria(query: ItemQuery): Portfolios.ItemCriteria {
    Portfolios.ItemCriteria(query.q, query.category,
                            if Truthy(query.editorId) then Text.ParseInt(query.editorId.value) else None,
                            TagList(query.tags))
  }

  /** The answer of `searchPortfolioItems`. */
  datatype ItemsPage = ItemsPage(categories: map<string, nat>, count: nat, items: seq<Portfolios.Item>)

  /** `searchPortfolioItems`: `page` and `limit` default to 1 and 20,
      `sortBy` to `created_at` and `sortOrder` to `DESC`. */
  function SearchPortfolioItems(items: Portfolios.PortfolioTable, accounts: map<nat, Users.User>, query: ItemQuery,
                                like: (string, string) -> bool, tagLike: (string, seq<string>) -> bool)
    : (r: Result<ItemsPage>)
    reads items
    ensures r.Ok? <==> Text.IntParam(query.page, 1).Some? && Text.IntParam(query.limit, 20).Some?
    ensures r.Err? ==> r.error == Mismatch
    ensures r.Ok? ==>
      r.value.categories == items.Categories() && r.value.count == |r.value.items|
      && (Text.IntParam(query.limit, 20).value >= 0 ==> r.value.count <= Text.IntParam(query.limit, 20).value)
      && (forall i :: i in r.value.items ==>
            i in items.rows.Values && Portfolios.Listed(accounts, i)
            && Portfolios.ItemMatches(i, ItemCriteria(query), like, tagLike))
      && Sorted(r.value.items, Portfolios.ItemSortKey(query.sortBy.GetOr("created_at"), query.sortOrder.GetOr("DESC")))
      && IsWindow(r.value.items, Rows(items.rows, items.nextId), Portfolios.ItemFilter(accounts, ItemCriteria(query), like, tagLike),
                  Portfolios.ItemSortKey(query.sortBy.GetOr("created_at"), query.sortOrder.GetOr("DESC")),
                  Text.IntParam(query.limit, 20).value,
                  (Text.IntParam(query.page, 1).value - 1) * Text.IntParam(query.limit, 20).value)
  {
    var p := Text.IntParam(query.page, 1);
    var l := Text.IntParam(query.limit, 20);
    var offset := Offset(p, l);
    if offset.None? then Err(Mismatch)
    else
      var found := items.SearchItems(accounts, ItemCriteria(query), like, tagLike, query.sortBy.GetOr("created_at"),
                                     query.sortOrder.GetOr("DESC"), l.value, offset.value);
      Ok(ItemsPage(items.Categories(), |found|, found))
  }
}
