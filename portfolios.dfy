/** The `portfolio_items` table of `models/Portfolio.js`, and the editor
    directory built from it: profiles with project statistics, the editor
    listing and search, the item search and the category summary.  `LIKE`
    matching is a predicate given by the caller; the tag test
    `tags LIKE '%"tag"%'` on the stored JSON text is another. */
module Portfolios {
  import opened Common
  import opened Schema
  import opened Queries
  import Text
  import Users
  import Projects
  import Proposals
  import Reviews

  /** A stored item.  `tags` is kept as the list that `JSON.stringify`
      wrote and `JSON.parse` reads back. */
  datatype Item = Item(id: nat, editorId: int, title: string, description: string, category: Option<string>,
                       thumbnailUrl: Option<string>, videoUrl: Option<string>, tags: seq<string>, views: int,
                       createdAt: Time, updatedAt: Time)

  function NewestFirst(i: Item): seq<Term> {
    [Desc(Int(i.createdAt))]
  }

  /** `COALESCE(?, column)`. */
  function Coalesce<T>(given: Option<T>, current: T): T {
    if given.Some? then given.value else current
  }

  /** `COALESCE(?, column)` on a nullable column. */
  function CoalesceOpt<T>(given: Option<T>, current: Option<T>): Option<T> {
    if given.Some? then given else current
  }

  /** The `JOIN users` on the item's editor. */
  predicate Listed(accounts: map<nat, Users.User>, i: Item) {
    Users.Present(accounts, i.editorId)
  }

  function ByEditor(accounts: map<nat, Users.User>, editorId: int): Item -> bool {
    (i: Item) => i.editorId == editorId && Listed(accounts, i)
  }

  /** `WHERE p.category = ?` when the category is truthy. */
  function InCategory(accounts: map<nat, Users.User>, category: Option<string>): Item -> bool {
    (i: Item) => Listed(accounts, i) && (!Truthy(category) || i.category == category)
  }

  // ------------------------------------------------------------ item search

  /** The filters of `searchPortfolioItems`.  `editorId` is used only when
      truthy, and `tags` only when it holds at least one tag. */
  datatype ItemCriteria = ItemCriteria(query: Option<string>, category: Option<string>, editorId: Option<int>,
                                       tags: Option<seq<string>>)

  predicate ItemMatches(i: Item, c: ItemCriteria, like: (string, string) -> bool,
                        tagLike: (string, seq<string>) -> bool) {
    (!Truthy(c.query) || like(c.query.value, i.title) || like(c.query.value, i.description))
    && (!Truthy(c.category) || i.category == c.category)
    && (c.editorId.None? || c.editorId.value == 0 || i.editorId == c.editorId.value)
    && (c.tags.None? || c.tags.value == [] || exists t :: t in c.tags.value && tagLike(t, i.tags))
  }

  function ItemFilter(accounts: map<nat, Users.User>, c: ItemCriteria, like: (string, string) -> bool,
                      tagLike: (string, seq<string>) -> bool): Item -> bool {
    (i: Item) => Listed(accounts, i) && ItemMatches(i, c, like, tagLike)
  }

  /** The item-search sort columns. */
  datatype ItemColumn = ItemCreatedAt | Views | ItemTitle

  function ItemColumnName(c: ItemColumn): string {
    match c
    case ItemCreatedAt => "created_at"
    case Views => "views"
    case ItemTitle => "title"
  }

  /** The whitelist: `views` and `title` are used as given, anything else
      sorts by `created_at`. */
  function ItemSortColumn(sortBy: string): (r: ItemColumn)
    ensures ItemColumnName(r) == if sortBy in ["created_at", "views", "title"] then sortBy else "created_at"
  {
    if sortBy == "views" then Views else if sortBy == "title" then ItemTitle else ItemCreatedAt
  }

  function ItemSortKey(sortBy: string, sortOrder: string): Item -> seq<Term> {
    var column := ItemSortColumn(sortBy);
    var ascending := Text.AscendingOrder(sortOrder);
    (i: Item) => [Dir(ascending, match column
                                 case ItemCreatedAt => Int(i.createdAt)
                                 case Views => Int(i.views)
                                 case ItemTitle => Value.Text(i.title))]
  }

  // ------------------------------------------------------ editor statistics

  /** `(SELECT COUNT(*) FROM projects WHERE editor_id = ? AND status = 'completed')`. */
  function CompletedProjects(projects: map<nat, Projects.Project>, editorId: int): nat {
    |set k | k in projects && projects[k].editorId == editorId && projects[k].status == Completed|
  }

  /** `(SELECT COUNT(*) FROM projects WHERE editor_id = ?)`. */
  function TotalProjects(projects: map<nat, Projects.Project>, editorId: int): nat {
    |set k | k in projects && projects[k].editorId == editorId|
  }

  /** An editor has completed no more projects than they hold. */
  lemma CompletedWithinTotal(projects: map<nat, Projects.Project>, editorId: int)
    ensures CompletedProjects(projects, editorId) <= TotalProjects(projects, editorId)
  {
    var done := set k | k in projects && projects[k].editorId == editorId && projects[k].status == Completed;
    var all := set k | k in projects && projects[k].editorId == editorId;
    assert all == done + (all - done);
  }

  /** `(SELECT COUNT(*) FROM proposals WHERE editor_id = ? AND status = 'accepted')`. */
  function AcceptedProposals(proposals: map<nat, Proposals.Proposal>, editorId: int): nat {
    |set k | k in proposals && proposals[k].editorId == editorId && proposals[k].status == Accepted|
  }

  /** `(SELECT COUNT(*) FROM portfolio_items WHERE editor_id = ?)`. */
  function PortfolioCount(items: map<nat, Item>, editorId: int): nat {
    |set k | k in items && items[k].editorId == editorId|
  }

  /** `EXISTS (SELECT 1 FROM portfolio_items WHERE editor_id = ? AND category = ?)`. */
  predicate HasItemIn(items: map<nat, Item>, editorId: int, category: string) {
    exists k :: k in items && items[k].editorId == editorId && items[k].category == Some(category)
  }

  /** `(SELECT COUNT(*) FROM reviews WHERE reviewee_id = ?)` over a scan of
      the reviews. */
  function ReviewCount(reviews: seq<Reviews.Review>, userId: int): nat {
    Count(reviews, Reviews.Received(userId))
  }

  // ------------------------------------------------------- editor listings

  /** A row of `getAllEditors`. */
  datatype EditorListing = EditorListing(id: nat, name: string, createdAt: Time, portfolioCount: nat,
                                         completedProjects: nat)

  /** A row of `searchEditors`. */
  datatype EditorMatch = EditorMatch(id: nat, name: string, createdAt: Time, portfolioCount: nat,
                                     completedProjects: nat, averageRating: Option<real>, reviewCount: nat)

  predicate IsEditor(u: Users.User) {
    u.role == Editor
  }

  /** `WHERE u.role = 'editor'`. */
  function EditorOnly(): Users.User -> bool {
    (u: Users.User) => IsEditor(u)
  }

  function Listing(u: Users.User, items: map<nat, Item>, projects: map<nat, Projects.Project>): EditorListing {
    EditorListing(u.id, u.name, u.createdAt, PortfolioCount(items, u.id), CompletedProjects(projects, u.id))
  }

  function Match(u: Users.User, items: map<nat, Item>, projects: map<nat, Projects.Project>,
                 reviews: seq<Reviews.Review>): EditorMatch {
    var avg := Reviews.AverageRating(reviews, u.id);
    EditorMatch(u.id, u.name, u.createdAt, PortfolioCount(items, u.id), CompletedProjects(projects, u.id),
                if avg.None? then None else Some(Reviews.Round2(avg.value)), ReviewCount(reviews, u.id))
  }

  function Listings(us: seq<Users.User>, items: map<nat, Item>, projects: map<nat, Projects.Project>)
    : (r: seq<EditorListing>)
    ensures |r| == |us|
    ensures forall i :: 0 <= i < |us| ==> r[i] == Listing(us[i], items, projects)
  {
    if us == [] then [] else [Listing(us[0], items, projects)] + Listings(us[1..], items, projects)
  }

  function Matches(us: seq<Users.User>, items: map<nat, Item>, projects: map<nat, Projects.Project>,
                   reviews: seq<Reviews.Review>): (r: seq<EditorMatch>)
    ensures |r| == |us|
    ensures forall i :: 0 <= i < |us| ==> r[i] == Match(us[i], items, projects, reviews)
  {
    if us == [] then [] else [Match(us[0], items, projects, reviews)] + Matches(us[1..], items, projects, reviews)
  }

  /** `ORDER BY completed_projects DESC`. */
  function MostCompletedFirst(projects: map<nat, Projects.Project>): Users.User -> seq<Term> {
    (u: Users.User) => [Desc(Int(CompletedProjects(projects, u.id)))]
  }

  /** `Portfolio.getAllEditors`: one page of the editors, those with the
      most completed projects first. */
  function AllEditors(users: Users.UserTable, items: map<nat, Item>, projects: map<nat, Projects.Project>,
                      limit: int, offset: int): (r: seq<EditorListing>)
    reads users
    ensures limit >= 0 ==> |r| <= limit
    ensures forall i :: 0 <= i < |r| ==>
      exists u :: u in users.rows.Values && IsEditor(u) && r[i] == Listing(u, items, projects)
    ensures forall i, j :: 0 <= i < j < |r| ==> r[i].completedProjects >= r[j].completedProjects
    ensures exists w :: IsWindow(w, Rows(users.rows, users.nextId), EditorOnly(), MostCompletedFirst(projects), limit, offset)
                        && r == Listings(w, items, projects)
  {
    var all := Rows(users.rows, users.nextId);
    var page := Select(all, EditorOnly(), MostCompletedFirst(projects), limit, offset);
    assert IsWindow(page, all, EditorOnly(), MostCompletedFirst(projects), limit, offset);
    var r := Listings(page, items, projects);
    ListingsOfEditors(users.rows, users.nextId, items, projects, page, r);
    r
  }

  /** The listings of a page of editors in `getAllEditors` order come
      from editors, those with the most completed projects first. */
  lemma ListingsOfEditors(rows: map<nat, Users.User>, n: nat, items: map<nat, Item>, projects: map<nat, Projects.Project>,
                          page: seq<Users.User>, r: seq<EditorListing>)
    requires forall u :: u in page ==> u in Rows(rows, n) && EditorOnly()(u)
    requires Sorted(page, MostCompletedFirst(projects))
    requires r == Listings(page, items, projects)
    ensures forall i :: 0 <= i < |r| ==> exists u :: u in rows.Values && IsEditor(u) && r[i] == Listing(u, items, projects)
    ensures forall i, j :: 0 <= i < j < |r| ==> r[i].completedProjects >= r[j].completedProjects
  {
    forall i | 0 <= i < |r|
      ensures exists u :: u in rows.Values && IsEditor(u) && r[i] == Listing(u, items, projects)
    {
      assert page[i] in page;
      var k :| k in rows && k < n && rows[k] == page[i];
    }
    forall i, j | 0 <= i < j < |r| ensures r[i].completedProjects >= r[j].completedProjects {
      DescendingCounts(CompletedProjects(projects, page[i].id), CompletedProjects(projects, page[j].id));
    }
  }

  /** A `DESC` sort on a count puts larger counts first. */
  lemma DescendingCounts(a: nat, b: nat)
    requires KeyLe([Desc(Int(a))], [Desc(Int(b))])
    ensures a >= b
  {
    assert [Desc(Int(a))][1..] == [];
  }

  /** The filters of `searchEditors` and `searchEditorsCount`.  A numeric
      bound that did not parse reaches SQLite as NULL. */
  datatype Bound<T> = NoBound | AtLeast(bound: Option<T>)

  datatype EditorCriteria = EditorCriteria(query: Option<string>, minRating: Bound<real>, minProjects: Bound<int>,
                                           hasPortfolio: bool, category: Option<string>)

  predicate EditorMatches(u: Users.User, c: EditorCriteria, items: map<nat, Item>, projects: map<nat, Projects.Project>,
                          reviews: seq<Reviews.Review>, like: (string, string) -> bool) {
    IsEditor(u)
    && (!Truthy(c.query) || like(c.query.value, u.name))
    && (!Truthy(c.category) || HasItemIn(items, u.id, c.category.value))
    && (c.minProjects.NoBound? ||
        (c.minProjects.bound.Some? && CompletedProjects(projects, u.id) >= c.minProjects.bound.value))
    && (!c.hasPortfolio || PortfolioCount(items, u.id) > 0)
    && (c.minRating.NoBound? ||
        (c.minRating.bound.Some? && Reviews.AverageRating(reviews, u.id).Some?
         && Reviews.AverageRating(reviews, u.id).value >= c.minRating.bound.value))
  }

  function EditorFilter(c: EditorCriteria, items: map<nat, Item>, projects: map<nat, Projects.Project>,
                        reviews: seq<Reviews.Review>, like: (string, string) -> bool): Users.User -> bool {
    (u: Users.User) => EditorMatches(u, c, items, projects, reviews, like)
  }

  /** The editor-search sort columns. */
  datatype EditorColumn = EditorCreatedAt | CompletedColumn | PortfolioCountColumn | AverageRatingColumn
                        | ReviewCountColumn | Name

  function EditorColumnName(c: EditorColumn): string {
    match c
    case EditorCreatedAt => "created_at"
    case CompletedColumn => "completed_projects"
    case PortfolioCountColumn => "portfolio_count"
    case AverageRatingColumn => "average_rating"
    case ReviewCountColumn => "review_count"
    case Name => "name"
  }

  const EditorSortColumns: seq<string> :=
    ["created_at", "completed_projects", "portfolio_count", "average_rating", "review_count", "name"]

  /** The whitelist: a listed column is used as given, anything else
      sorts by `completed_projects`. */
  function EditorSortColumn(sortBy: string): (r: EditorColumn)
    ensures EditorColumnName(r) == if sortBy in EditorSortColumns then sortBy else "completed_projects"
  {
    if sortBy == "created_at" then EditorCreatedAt
    else if sortBy == "portfolio_count" then PortfolioCountColumn
    else if sortBy == "average_rating" then AverageRatingColumn
    else if sortBy == "review_count" then ReviewCountColumn
    else if sortBy == "name" then Name
    else CompletedColumn
  }

  function EditorColumnValue(c: EditorColumn, m: EditorMatch): Value {
    match c
    case EditorCreatedAt => Int(m.createdAt)
    case CompletedColumn => Int(m.completedProjects)
    case PortfolioCountColumn => Int(m.portfolioCount)
    case AverageRatingColumn => if m.averageRating.None? then Null else Num(m.averageRating.value)
    case ReviewCountColumn => Int(m.reviewCount)
    case Name => Value.Text(m.name)
  }

  /** `ORDER BY <column> <ASC|DESC> NULLS LAST` on a result row: rows
      without a value come after every row with one, in either direction. */
  function MatchKey(sortBy: string, sortOrder: string): EditorMatch -> seq<Term> {
    var column := EditorSortColumn(sortBy);
    var ascending := Text.AscendingOrder(sortOrder);
    (m: EditorMatch) =>
      var v := EditorColumnValue(column, m);
      [Asc(Int(if v.Null? then 1 else 0)), Dir(ascending, v)]
  }

  /** The same order on the editors the rows are computed from. */
  function EditorSortKey(sortBy: string, sortOrder: string, items: map<nat, Item>,
                         projects: map<nat, Projects.Project>, reviews: seq<Reviews.Review>)
    : Users.User -> seq<Term> {
    (u: Users.User) => MatchKey(sortBy, sortOrder)(Match(u, items, projects, reviews))
  }

  /** `Portfolio.searchEditors`: one page of the matching editors, in the
      chosen order. */
  function SearchEditors(users: Users.UserTable, items: map<nat, Item>, projects: map<nat, Projects.Project>,
                         reviews: seq<Reviews.Review>, c: EditorCriteria, like: (string, string) -> bool,
                         sortBy: string, sortOrder: string, limit: int, offset: int): (r: seq<EditorMatch>)
    reads users
    ensures forall i :: 0 <= i < |r| ==>
      exists u :: u in users.rows.Values && EditorMatches(u, c, items, projects, reviews, like)
                  && r[i] == Match(u, items, projects, reviews)
    ensures var n := SearchEditorsCount(users, items, projects, reviews, c, like);
      var start := if offset < 0 then 0 else if offset > n then n else offset;
      |r| == if 0 <= limit < n - start then limit else n - start
    ensures Sorted(r, MatchKey(sortBy, sortOrder))
    ensures exists w :: IsWindow(w, Rows(users.rows, users.nextId), EditorFilter(c, items, projects, reviews, like),
                                 EditorSortKey(sortBy, sortOrder, items, projects, reviews), limit, offset)
                        && r == Matches(w, items, projects, reviews)
  {
    var all := Rows(users.rows, users.nextId);
    var page := Select(all, EditorFilter(c, items, projects, reviews, like),
                       EditorSortKey(sortBy, sortOrder, items, projects, reviews), limit, offset);
    assert IsWindow(page, all, EditorFilter(c, items, projects, reviews, like),
                    EditorSortKey(sortBy, sortOrder, items, projects, reviews), limit, offset);
    var r := Matches(page, items, projects, reviews);
    MatchesOfEditors(users.rows, users.nextId, items, projects, reviews, c, like, sortBy, sortOrder, page, r);
    r
  }

  /** The rows built from a page of matching editors in the chosen order
      come from matching editors and keep that order. */
  lemma MatchesOfEditors(rows: map<nat, Users.User>, n: nat, items: map<nat, Item>,
                         projects: map<nat, Projects.Project>, reviews: seq<Reviews.Review>, c: EditorCriteria,
                         like: (string, string) -> bool, sortBy: string, sortOrder: string, page: seq<Users.User>,
                         r: seq<EditorMatch>)
    requires forall u :: u in page ==> u in Rows(rows, n) && EditorFilter(c, items, projects, reviews, like)(u)
    requires Sorted(page, EditorSortKey(sortBy, sortOrder, items, projects, reviews))
    requires r == Matches(page, items, projects, reviews)
    ensures forall i :: 0 <= i < |r| ==>
      exists u :: u in rows.Values && EditorMatches(u, c, items, projects, reviews, like)
                  && r[i] == Match(u, items, projects, reviews)
    ensures Sorted(r, MatchKey(sortBy, sortOrder))
  {
    var key := EditorSortKey(sortBy, sortOrder, items, projects, reviews);
    forall i, j | 0 <= i < j < |r| ensures KeyLe(MatchKey(sortBy, sortOrder)(r[i]), MatchKey(sortBy, sortOrder)(r[j])) {
      assert KeyLe(key(page[i]), key(page[j]));
    }
    forall i | 0 <= i < |r|
      ensures exists u :: u in rows.Values && EditorMatches(u, c, items, projects, reviews, like)
                          && r[i] == Match(u, items, projects, reviews)
    {
      assert page[i] in page;
      var k :| k in rows && k < n && rows[k] == page[i];
    }
  }

  /** `Portfolio.searchEditorsCount`: the same filter over the whole
      `users` table; it is zero exactly when no editor matches. */
  function SearchEditorsCount(users: Users.UserTable, items: map<nat, Item>, projects: map<nat, Projects.Project>,
                              reviews: seq<Reviews.Review>, c: EditorCriteria, like: (string, string) -> bool)
    : (r: nat)
    reads users
    ensures r > 0 <==> exists k :: k in users.rows && k < users.nextId
                                   && EditorMatches(users.rows[k], c, items, projects, reviews, like)
  {
    var all := Rows(users.rows, users.nextId);
    var hits := Filter(all, EditorFilter(c, items, projects, reviews, like));
    assert hits != [] ==> hits[0] in hits;
    forall k | k in users.rows && k < users.nextId && EditorMatches(users.rows[k], c, items, projects, reviews, like)
      ensures hits != []
    {
      assert users.rows[k] in all;
      assert users.rows[k] in hits;
    }
    |hits|
  }

  /** The count is the number of editors an unlimited search returns, so
      `searchEditors` pages through exactly that many. */
  lemma SearchEditorsCountExact(users: Users.UserTable, items: map<nat, Item>, projects: map<nat, Projects.Project>,
                                reviews: seq<Reviews.Review>, c: EditorCriteria, like: (string, string) -> bool,
                                sortBy: string, sortOrder: string)
    ensures SearchEditorsCount(users, items, projects, reviews, c, like)
            == |SearchEditors(users, items, projects, reviews, c, like, sortBy, sortOrder, -1, 0)|
  {
  }

  // --------------------------------------------------------------- profile

  /** The `stats` of an editor profile. */
  datatype ProfileStats = ProfileStats(completedProjects: nat, totalProjects: nat, acceptedProposals: nat,
                                       successRate: int)

  datatype Profile = Profile(user: Users.PublicUser, portfolio: seq<Item>, stats: ProfileStats)

  /** `successRate`: the rounded percentage of the editor's projects that
      are completed, or 0 without projects. */
  function SuccessRate(completed: nat, total: nat): (r: int)
    requires completed <= total
    ensures 0 <= r <= 100
    ensures total == 0 ==> r == 0
    ensures total > 0 ==> r == Percent(completed, total)
    ensures total > 0 && completed == total ==> r == 100
  {
    if total > 0 then
      PercentBounds(completed, total);
      Percent(completed, total)
    else 0
  }

  // ------------------------------------------------------------------ table

  /** The `portfolio_items` table. */
  class PortfolioTable {
    var rows: map<nat, Item>
    var nextId: nat

    ghost predicate Valid()
      reads this
    {
      nextId >= 1 && forall id :: id in rows ==> rows[id].id == id && 1 <= id < nextId
    }

    constructor ()
      ensures Valid() && rows == map[]
    {
      rows := map[];
      nextId := 1;
    }

    /** `Portfolio.create`: the item is stored with its tags (none given
        means `[]`) and no views, and returned with its new id. */
    method Create(editorId: int, title: string, description: string, category: Option<string>,
                  thumbnailUrl: Option<string>, videoUrl: Option<string>, tags: Option<seq<string>>, now: Time)
      returns (item: Item)
      requires Valid()
      modifies this
      ensures Valid()
      ensures item == Item(old(nextId), editorId, title, description, category, thumbnailUrl, videoUrl,
                           tags.GetOr([]), 0, now, now)
      ensures item.id !in old(rows) && rows == old(rows)[item.id := item]
    {
      item := Item(nextId, editorId, title, description, category, thumbnailUrl, videoUrl, tags.GetOr([]), 0, now, now);
      rows := rows[nextId := item];
      nextId := nextId + 1;
    }

    /** `Portfolio.findByEditorId`: the editor's items, newest first. */
    function FindByEditorId(accounts: map<nat, Users.User>, editorId: int): (r: seq<Item>)
      requires Valid()
      reads this
      ensures forall i :: i in r <==> i in rows.Values && i.editorId == editorId && Listed(accounts, i)
      ensures Queries.Listing(r, Rows(rows, nextId), ByEditor(accounts, editorId), NewestFirst)
    {
      SelectRows(rows, nextId, ByEditor(accounts, editorId), NewestFirst)
    }

    /** `Portfolio.findById`: an item whose editor still has an account. */
    function FindById(accounts: map<nat, Users.User>, id: int): (r: Option<Item>)
      reads this
      ensures r.Some? <==> id >= 0 && id in rows && Listed(accounts, rows[id])
      ensures r.Some? ==> r.value == rows[id]
    {
      if id >= 0 && id in rows && Listed(accounts, rows[id]) then Some(rows[id]) else None
    }

    /** `Portfolio.findAll`: one page of the showcase, newest first,
        restricted to a category when one is given. */
    function FindAll(accounts: map<nat, Users.User>, limit: int, offset: int, category: Option<string>)
      : (r: seq<Item>)
      reads this
      ensures forall i :: i in r ==>
        i in rows.Values && Listed(accounts, i) && (Truthy(category) ==> i.category == category)
      ensures Sorted(r, NewestFirst)
      ensures limit >= 0 ==> |r| <= limit
      ensures IsWindow(r, Rows(rows, nextId), InCategory(accounts, category), NewestFirst, limit, offset)
    {
      var all := Rows(rows, nextId);
      assert forall i :: i in all ==> i in rows.Values;
      Select(all, InCategory(accounts, category), NewestFirst, limit, offset)
    }

    /** `Portfolio.update`: every field passed as NULL keeps its value (an
        empty string does overwrite), tags are replaced only when given.
        Reports whether a row changed. */
    method Update(id: int, title: Option<string>, description: Option<string>, category: Option<string>,
                  thumbnailUrl: Option<string>, videoUrl: Option<string>, tags: Option<seq<string>>, now: Time)
      returns (changed: bool)
      requires Valid()
      modifies this
      ensures Valid() && nextId == old(nextId)
      ensures changed <==> id >= 0 && id in old(rows)
      ensures changed ==>
        var x := old(rows[id]);
        rows == old(rows)[id := x.(title := Coalesce(title, x.title), description := Coalesce(description, x.description),
                                   category := CoalesceOpt(category, x.category),
                                   thumbnailUrl := CoalesceOpt(thumbnailUrl, x.thumbnailUrl),
                                   videoUrl := CoalesceOpt(videoUrl, x.videoUrl), tags := Coalesce(tags, x.tags),
                                   updatedAt := now)]
      ensures !changed ==> rows == old(rows)
    {
      changed := id >= 0 && id in rows;
      if changed {
        var x := rows[id];
        rows := rows[id as nat := x.(title := Coalesce(title, x.title),
                                     description := Coalesce(description, x.description),
                                     category := CoalesceOpt(category, x.category),
                                     thumbnailUrl := CoalesceOpt(thumbnailUrl, x.thumbnailUrl),
                                     videoUrl := CoalesceOpt(videoUrl, x.videoUrl), tags := Coalesce(tags, x.tags),
                                     updatedAt := now)];
      }
    }

    /** `Portfolio.delete`: removes that item alone; true exactly when it
        existed. */
    method Delete(id: int) returns (removed: bool)
      requires Valid()
      modifies this
      ensures Valid() && nextId == old(nextId)
      ensures removed <==> id >= 0 && id in old(rows)
      ensures rows == if removed then old(rows) - {id as nat} else old(rows)
    {
      removed := id >= 0 && id in rows;
      if removed {
        rows := rows - {id as nat};
      }
    }

    /** `Portfolio.incrementViews`: that item's views go up by exactly one;
        nothing else changes. */
    method IncrementViews(id: int) returns (changed: bool)
      requires Valid()
      modifies this
      ensures Valid() && nextId == old(nextId)
      ensures changed <==> id >= 0 && id in old(rows)
      ensures rows.Keys == old(rows.Keys)
      ensures changed ==> rows == old(rows)[id := old(rows[id]).(views := old(rows[id]).views + 1)]
      ensures !changed ==> rows == old(rows)
    {
      changed := id >= 0 && id in rows;
      if changed {
        rows := rows[id as nat := rows[id].(views := rows[id].views + 1)];
      }
    }

    /** `Portfolio.searchPortfolioItems`: one page of the matching items
        whose editor has an account, in the chosen order. */
    function SearchItems(accounts: map<nat, Users.User>, c: ItemCriteria, like: (string, string) -> bool,
                         tagLike: (string, seq<string>) -> bool, sortBy: string, sortOrder: string, limit: int,
                         offset: int): (r: seq<Item>)
      reads this
      ensures forall i :: i in r ==> i in rows.Values && Listed(accounts, i) && ItemMatches(i, c, like, tagLike)
      ensures Sorted(r, ItemSortKey(sortBy, sortOrder))
      ensures limit >= 0 ==> |r| <= limit
      ensures IsWindow(r, Rows(rows, nextId), ItemFilter(accounts, c, like, tagLike), ItemSortKey(sortBy, sortOrder),
                       limit, offset)
    {
      var all := Rows(rows, nextId);
      assert forall i :: i in all ==> i in rows.Values;
      Select(all, ItemFilter(accounts, c, like, tagLike), ItemSortKey(sortBy, sortOrder), limit, offset)
    }

    /** The non-empty categories in use. */
    function CategoryNames(): set<string>
      reads this
    {
      set k | k in rows && rows[k].category.Some? && rows[k].category.value != "" :: rows[k].category.value
    }

    function CategoryCount(category: string): nat
      reads this
    {
      |set k | k in rows && rows[k].category == Some(category)|
    }

    /** `Portfolio.getCategories`: every non-empty category in use, with
        the number of items in it. */
    function Categories(): (r: map<string, nat>)
      reads this
      ensures forall c :: c in r <==> c != "" && exists k :: k in rows && rows[k].category == Some(c)
      ensures forall c :: c in r ==> r[c] == CategoryCount(c) && r[c] >= 1
    {
      var names := CategoryNames();
      assert forall c :: c in names ==> CategoryCount(c) >= 1 by {
        forall c | c in names ensures CategoryCount(c) >= 1 {
          var k :| k in rows && rows[k].category.Some? && rows[k].category.value != "" && rows[k].category.value == c;
          var hits := set j | j in rows && rows[j].category == Some(c);
          assert k in hits;
        }
      }
      map c | c in names :: CategoryCount(c)
    }
  }

  /** `Portfolio.getEditorProfile`: only an existing editor has a
      profile.  Its success rate is the rounded share of the editor's
      projects that are completed, 0 without projects, so within 0..100. */
  function GetEditorProfile(users: Users.UserTable, items: PortfolioTable, projects: map<nat, Projects.Project>,
                            proposals: map<nat, Proposals.Proposal>, editorId: int): (r: Option<Profile>)
    requires items.Valid()
    reads users, items
    ensures r.Some? <==> editorId >= 0 && editorId in users.rows && users.rows[editorId].role == Editor
    ensures r.Some? ==>
      r.value.user == Users.Public(users.rows[editorId])
      && r.value.portfolio == items.FindByEditorId(users.rows, editorId)
      && r.value.stats.completedProjects == CompletedProjects(projects, editorId)
      && r.value.stats.totalProjects == TotalProjects(projects, editorId)
      && r.value.stats.acceptedProposals == AcceptedProposals(proposals, editorId)
      && 0 <= r.value.stats.successRate <= 100
      && (r.value.stats.totalProjects == 0 ==> r.value.stats.successRate == 0)
      && (r.value.stats.totalProjects > 0 ==>
            r.value.stats.successRate == Percent(r.value.stats.completedProjects, r.value.stats.totalProjects))
  {
    if !(editorId >= 0 && editorId in users.rows && users.rows[editorId].role == Editor) then None
    else
      var completed := CompletedProjects(projects, editorId);
      var total := TotalProjects(projects, editorId);
      CompletedWithinTotal(projects, editorId);
      Some(Profile(Users.Public(users.rows[editorId]), items.FindByEditorId(users.rows, editorId),
                   ProfileStats(completed, total, AcceptedProposals(proposals, editorId), SuccessRate(completed, total))))
  }
}
