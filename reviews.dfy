/** The `reviews` table of `models/Review.js`: a rating of 1 to 5 that one
    party of a completed project gives the other, with an optional title,
    comment and category. */
module Reviews {
  import opened Common
  import opened Schema
  import opened Queries
  import Users
  import Projects

  datatype Review = Review(id: nat, projectId: int, reviewerId: int, revieweeId: int, rating: real,
                           title: Option<string>, comment: Option<string>, category: ReviewCategory,
                           createdAt: Time, updatedAt: Time)

  /** `ORDER BY r.created_at DESC`. */
  function NewestFirst(r: Review): seq<Term> {
    [Desc(Int(r.createdAt))]
  }

  /** `category || 'general'`, then the column's CHECK: a category outside
      the list is refused. */
  function CategoryOrDefault(category: Option<string>): (r: Option<ReviewCategory>)
    ensures !Truthy(category) ==> r == Some(General)
    ensures Truthy(category) ==> (r.Some? <==> exists c :: ReviewCategoryName(c) == category.value)
    ensures Truthy(category) && r.Some? ==> ReviewCategoryName(r.value) == category.value
  {
    if Truthy(category) then ParseReviewCategory(category.value) else Some(General)
  }

  /** At most one review per project and reviewer. */
  ghost predicate OnePerReviewer(rows: map<nat, Review>) {
    forall a, b :: a in rows && b in rows && a != b && rows[a].projectId == rows[b].projectId ==>
      rows[a].reviewerId != rows[b].reviewerId
  }

  /** A review for a project and reviewer with no review yet keeps the
      table at one review per reviewer and project. */
  lemma OnePerReviewerInsert(rows: map<nat, Review>, id: nat, review: Review)
    requires OnePerReviewer(rows) && id !in rows
    requires forall k :: k in rows ==> !(rows[k].projectId == review.projectId && rows[k].reviewerId == review.reviewerId)
    ensures OnePerReviewer(rows[id := review])
  {
  }

  /** `WHERE r.reviewee_id = ?`, the `JOIN users reviewer`, and
      `r.rating >= minRating` when `minRating` is truthy. */
  function ReceivedFilter(accounts: map<nat, Users.User>, userId: int, minRating: Option<int>): Review -> bool {
    (r: Review) => r.revieweeId == userId && Users.Present(accounts, r.reviewerId)
                   && (minRating.None? || minRating.value == 0 || r.rating >= minRating.value as real)
  }

  /** `WHERE r.reviewer_id = ?` and the `JOIN users reviewee`. */
  function GivenFilter(accounts: map<nat, Users.User>, reviewerId: int): Review -> bool {
    (r: Review) => r.reviewerId == reviewerId && Users.Present(accounts, r.revieweeId)
  }

  /** The reviews a user received. */
  function Received(userId: int): Review -> bool {
    (r: Review) => r.revieweeId == userId
  }

  /** The reviews a user received with exactly `k` stars. */
  function Stars(userId: int, k: int): Review -> bool {
    (r: Review) => r.revieweeId == userId && r.rating == k as real
  }

  /** The reviews a user received with a whole number of at most `k`
      stars. */
  function WholeUpTo(userId: int, k: int): Review -> bool {
    (r: Review) => r.revieweeId == userId && IsWhole(r.rating) && r.rating <= k as real
  }

  /** The reviews a user received whose rating has a fractional part: no
      `CASE WHEN rating = k` of `getUserStats` counts them. */
  function Fractional(userId: int): Review -> bool {
    (r: Review) => r.revieweeId == userId && !IsWhole(r.rating)
  }

  function RatingSum(rs: seq<Review>): real {
    if rs == [] then 0.0 else rs[0].rating + RatingSum(rs[1..])
  }

  /** `AVG(rating)` over the user's reviews: NULL when there are none. */
  function AverageRating(reviews: seq<Review>, userId: int): (r: Option<real>)
    ensures r.None? <==> Count(reviews, Received(userId)) == 0
  {
    var mine := Filter(reviews, Received(userId));
    if mine == [] then None else Some(RatingSum(mine) / |mine| as real)
  }

  lemma {:induction false} RatingSumBounds(rs: seq<Review>)
    requires forall x :: x in rs ==> ValidRating(x.rating)
    ensures |rs| as real <= RatingSum(rs) <= 5.0 * |rs| as real
  {
    if rs != [] {
      assert rs[0] in rs;
      assert forall x :: x in rs[1..] ==> x in rs;
      RatingSumBounds(rs[1..]);
    }
  }

  lemma QuotientBounds(sum: real, n: real)
    requires n > 0.0 && n <= sum <= 5.0 * n
    ensures 1.0 <= sum / n <= 5.0
  {
    var q := sum / n;
    assert sum == q * n;
    assert (q - 1.0) * n == sum - n;
    assert (5.0 - q) * n == 5.0 * n - sum;
  }

  /** With every rating in 1..5, an average exists only with reviews and
      lies between 1 and 5, so a `minRating` of at most 1 keeps every
      reviewed editor and one above 5 keeps none. */
  lemma AverageRatingBounds(reviews: seq<Review>, userId: int)
    requires forall x :: x in reviews ==> ValidRating(x.rating)
    ensures var avg := AverageRating(reviews, userId);
      avg.Some? ==> 1.0 <= avg.value <= 5.0
  {
    var mine := Filter(reviews, Received(userId));
    if mine != [] {
      RatingSumBounds(mine);
      var n := |mine| as real;
      var sum := RatingSum(mine);
      QuotientBounds(sum, n);
    }
  }

  /** `ROUND(x, 2)` for a non-negative `x`: halves round up. */
  function Round2(x: real): real {
    (x * 100.0 + 0.5).Floor as real / 100.0
  }

  /** Rounding to two places keeps a value of 1..5 within 1..5. */
  lemma Round2Bounds(x: real)
    requires 1.0 <= x <= 5.0
    ensures 1.0 <= Round2(x) <= 5.0
  {
    var f := (x * 100.0 + 0.5).Floor;
    assert f as real <= x * 100.0 + 0.5 < f as real + 1.0;
    assert 100 <= f <= 500;
  }

  /** The `getUserStats` row.  Over no rows `AVG` and every `SUM` are NULL
      while `COUNT(*)` is 0. */
  datatype Stats = Stats(totalReviews: nat, averageRating: Option<real>, fiveStar: Option<nat>, fourStar: Option<nat>,
                         threeStar: Option<nat>, twoStar: Option<nat>, oneStar: Option<nat>)

  /** The `reviews` table. */
  class ReviewTable {
    var rows: map<nat, Review>
    var nextId: nat

    /** Rowids are below `nextId`, and every stored rating passed the
        column's CHECK. */
    ghost predicate Valid()
      reads this
    {
      nextId >= 1
      && forall id :: id in rows ==> rows[id].id == id && 1 <= id < nextId && ValidRating(rows[id].rating)
    }

    constructor ()
      ensures Valid() && rows == map[]
    {
      rows := map[];
      nextId := 1;
    }

    /** `Review.create`: a NULL or out-of-range rating, or a category
        outside the list, fails the table's constraints and stores nothing;
        otherwise one review is stored and its id returned. */
    method Create(projectId: int, reviewerId: int, revieweeId: int, rating: Option<real>, title: Option<string>,
                  comment: Option<string>, category: Option<string>, now: Time)
      returns (r: Result<nat>)
      requires Valid()
      modifies this
      ensures Valid()
      ensures r.Err? <==> rating.None? || !ValidRating(rating.value) || CategoryOrDefault(category).None?
      ensures r.Err? ==> r.error.ConstraintError? && rows == old(rows) && nextId == old(nextId)
      ensures r.Ok? ==>
        r.value == old(nextId) && r.value !in old(rows)
        && rows == old(rows)[r.value := Review(r.value, projectId, reviewerId, revieweeId, rating.value, title,
                                                comment, CategoryOrDefault(category).value, now, now)]
    {
      if rating.None? {
        return Err(ConstraintError("NOT NULL constraint failed: reviews.rating"));
      }
      if !ValidRating(rating.value) {
        return Err(ConstraintError("CHECK constraint failed: rating"));
      }
      var c := CategoryOrDefault(category);
      if c.None? {
        return Err(ConstraintError("CHECK constraint failed: category"));
      }
      var review := Review(nextId, projectId, reviewerId, revieweeId, rating.value, title, comment, c.value, now, now);
      rows := rows[nextId := review];
      r := Ok(nextId);
      nextId := nextId + 1;
    }

    /** `Review.findById`: the review, when both its reviewer and its
        reviewee still have an account. */
    function FindById(accounts: map<nat, Users.User>, id: int): (r: Option<Review>)
      reads this
      ensures r.Some? <==>
        id >= 0 && id in rows && Users.Present(accounts, rows[id].reviewerId)
        && Users.Present(accounts, rows[id].revieweeId)
      ensures r.Some? ==> r.value == rows[id]
    {
      if id >= 0 && id in rows && Users.Present(accounts, rows[id].reviewerId)
         && Users.Present(accounts, rows[id].revieweeId)
      then Some(rows[id])
      else None
    }

    /** `Review.findByUserId`: one page of the reviews a user received,
        newest first. */
    function FindByUserId(accounts: map<nat, Users.User>, userId: int, limit: int, offset: int,
                          minRating: Option<int>): (r: seq<Review>)
      reads this
      ensures forall x :: x in r ==>
        x in rows.Values && x.revieweeId == userId && Users.Present(accounts, x.reviewerId)
        && (minRating.Some? && minRating.value != 0 ==> x.rating >= minRating.value as real)
      ensures Sorted(r, NewestFirst)
      ensures IsWindow(r, Rows(rows, nextId), ReceivedFilter(accounts, userId, minRating), NewestFirst, limit, offset)
      ensures var n := Count(Rows(rows, nextId), ReceivedFilter(accounts, userId, minRating));
        var start := if offset < 0 then 0 else if offset > n then n else offset;
        |r| == if 0 <= limit < n - start then limit else n - start
    {
      var all := Rows(rows, nextId);
      assert forall x :: x in all ==> x in rows.Values;
      Select(all, ReceivedFilter(accounts, userId, minRating), NewestFirst, limit, offset)
    }

    /** `Review.findByReviewerId`: one page of the reviews a user gave,
        newest first. */
    function FindByReviewerId(accounts: map<nat, Users.User>, reviewerId: int, limit: int, offset: int)
      : (r: seq<Review>)
      reads this
      ensures forall x :: x in r ==>
        x in rows.Values && x.reviewerId == reviewerId && Users.Present(accounts, x.revieweeId)
      ensures Sorted(r, NewestFirst)
      ensures IsWindow(r, Rows(rows, nextId), GivenFilter(accounts, reviewerId), NewestFirst, limit, offset)
      ensures var n := Count(Rows(rows, nextId), GivenFilter(accounts, reviewerId));
        var start := if offset < 0 then 0 else if offset > n then n else offset;
        |r| == if 0 <= limit < n - start then limit else n - start
    {
      var all := Rows(rows, nextId);
      assert forall x :: x in all ==> x in rows.Values;
      Select(all, GivenFilter(accounts, reviewerId), NewestFirst, limit, offset)
    }

    /** `Review.findByProjectAndReviewer`: the first such review in table
        order. */
    function FindByProjectAndReviewer(projectId: int, reviewerId: int): (r: Option<Review>)
      requires Valid()
      reads this
      ensures r.Some? <==> exists id :: id in rows && rows[id].projectId == projectId && rows[id].reviewerId == reviewerId
      ensures r.Some? ==> r.value in rows.Values && r.value.projectId == projectId && r.value.reviewerId == reviewerId
    {
      var all := Rows(rows, nextId);
      var hits := Filter(all, (x: Review) => x.projectId == projectId && x.reviewerId == reviewerId);
      assert forall id :: id in rows && rows[id].projectId == projectId && rows[id].reviewerId == reviewerId ==>
        rows[id] in hits by {
        forall id | id in rows && rows[id].projectId == projectId && rows[id].reviewerId == reviewerId
          ensures rows[id] in hits
        {
          assert rows[id] in all;
        }
      }
      if hits == [] then None
      else
        assert hits[0] in all;
        Some(hits[0])
    }

    /** `Review.getUserStats`: how many reviews the user received, and how
        many of them carry each number of stars; no counts at all for a
        user nobody reviewed. */
    function UserStats(userId: int): Stats
      reads this
    {
      var all := Rows(rows, nextId);
      var total := Count(all, Received(userId));
      if total == 0 then Stats(0, None, None, None, None, None, None)
      else
        Stats(total, Some(Round2(AverageRating(all, userId).value)), Some(Count(all, Stars(userId, 5))), Some(Count(all, Stars(userId, 4))),
              Some(Count(all, Stars(userId, 3))), Some(Count(all, Stars(userId, 2))),
              Some(Count(all, Stars(userId, 1))))
    }

    /** `Review.update`: `COALESCE` keeps every field passed as NULL.  A
        new rating outside 1..5 fails the CHECK and changes nothing; an
        unknown id changes nothing.  Reports whether a row changed. */
    method Update(id: int, rating: Option<real>, title: Option<string>, comment: Option<string>, now: Time)
      returns (r: Result<bool>)
      requires Valid()
      modifies this
      ensures Valid() && nextId == old(nextId)
      ensures r.Err? <==> id >= 0 && id in old(rows) && rating.Some? && !ValidRating(rating.value)
      ensures r.Err? ==> r.error.ConstraintError?
      ensures r == Ok(true) <==> id >= 0 && id in old(rows) && (rating.None? || ValidRating(rating.value))
      ensures r == Ok(true) ==>
        var x := old(rows[id]);
        rows == old(rows)[id := x.(rating := rating.GetOr(x.rating), title := if title.Some? then title else x.title,
                                   comment := if comment.Some? then comment else x.comment, updatedAt := now)]
      ensures r != Ok(true) ==> rows == old(rows)
    {
      if !(id >= 0 && id in rows) {
        return Ok(false);
      }
      var x := rows[id];
      if rating.Some? && !ValidRating(rating.value) {
        return Err(ConstraintError("CHECK constraint failed: rating"));
      }
      rows := rows[id as nat := x.(rating := rating.GetOr(x.rating), title := if title.Some? then title else x.title,
                                   comment := if comment.Some? then comment else x.comment, updatedAt := now)];
      return Ok(true);
    }

    /** `Review.delete`: removes that review alone; reports whether it
        existed. */
    method Delete(id: int) returns (removed: bool)
      requires Valid()
      modifies this
      ensures Valid() && nextId == old(nextId)
      ensures removed <==> id >= 0 && id in old(rows)
      ensures rows == if removed then old(rows) - {id as nat} else old(rows)
    {
      removed := id >= 0 && id in rows;
      if removed {
        rows := rows - {id as nat};
      }
    }
  }

  /** `Review.canReview`: the project exists, is completed, and the two
      users are its client and its editor, in either order. */
  predicate CanReview(projects: Projects.ProjectTable, reviewerId: int, revieweeId: int, projectId: int)
    reads projects
  {
    match projects.FindById(projectId)
    case None => false
    case Some(p) =>
      p.status == Completed
      && ((p.clientId == reviewerId && p.editorId == revieweeId) || (p.editorId == reviewerId && p.clientId == revieweeId))
  }

  /** Either party of a completed project may review the other, and
      nobody else may review through it. */
  lemma CanReviewIff(projects: Projects.ProjectTable, reviewerId: int, revieweeId: int, projectId: int)
    ensures CanReview(projects, reviewerId, revieweeId, projectId) <==>
      projectId >= 0 && projectId in projects.rows && projects.rows[projectId].status == Completed
      && {reviewerId, revieweeId} == {projects.rows[projectId].clientId, projects.rows[projectId].editorId}
    ensures CanReview(projects, reviewerId, revieweeId, projectId) <==>
      CanReview(projects, revieweeId, reviewerId, projectId)
  {
    if projectId >= 0 && projectId in projects.rows {
      var p := projects.rows[projectId];
      if {reviewerId, revieweeId} == {p.clientId, p.editorId} {
        assert reviewerId in {p.clientId, p.editorId} && revieweeId in {p.clientId, p.editorId};
        assert p.clientId in {reviewerId, revieweeId} && p.editorId in {reviewerId, revieweeId};
      }
    }
  }

  /** The reviews with at most `k` stars, bucket by bucket. */
  function StarSum(all: seq<Review>, userId: int, k: nat): nat {
    if k == 0 then 0 else StarSum(all, userId, k - 1) + Count(all, Stars(userId, k))
  }

  /** One review, bucket `k`: a whole rating of at most `k` stars is at
      most `k - 1` stars or exactly `k`, never both. */
  lemma WholeUpToStep(x: Review, userId: int, k: int)
    ensures (WholeUpTo(userId, k)(x) <==> WholeUpTo(userId, k - 1)(x) || Stars(userId, k)(x))
            && !(WholeUpTo(userId, k - 1)(x) && Stars(userId, k)(x))
  {
    if WholeUpTo(userId, k)(x) && !WholeUpTo(userId, k - 1)(x) {
      WholeBetween(x.rating, k);
    }
  }

  /** Bucket `k` and the whole ratings below it make up the whole ratings
      of at most `k` stars. */
  lemma WholeUpToSplit(all: seq<Review>, userId: int, k: int)
    ensures Count(all, WholeUpTo(userId, k)) == Count(all, WholeUpTo(userId, k - 1)) + Count(all, Stars(userId, k))
  {
    forall x | x in all
      ensures (WholeUpTo(userId, k)(x) <==> WholeUpTo(userId, k - 1)(x) || Stars(userId, k)(x))
              && !(WholeUpTo(userId, k - 1)(x) && Stars(userId, k)(x))
    {
      WholeUpToStep(x, userId, k);
    }
    CountDisjointUnion(all, WholeUpTo(userId, k), WholeUpTo(userId, k - 1), Stars(userId, k));
  }

  /** With no whole rating of 0 stars or fewer, the whole ratings of at
      most `k` stars are the buckets 1 to `k`. */
  lemma {:induction false} WholeUpToSum(all: seq<Review>, userId: int, k: nat)
    requires Count(all, WholeUpTo(userId, 0)) == 0
    ensures Count(all, WholeUpTo(userId, k)) == StarSum(all, userId, k)
  {
    if k > 0 {
      WholeUpToSum(all, userId, k - 1);
      WholeUpToSplit(all, userId, k);
    }
  }

  /** The five star buckets of `getUserStats` and the reviews with a
      fractional rating, which no bucket counts, add up to its total; a
      user nobody reviewed has no buckets. */
  lemma StarBucketsSum(t: ReviewTable, userId: int)
    requires t.Valid()
    ensures var s := t.UserStats(userId);
      s.totalReviews == 0 <==> s.fiveStar.None?
    ensures var s := t.UserStats(userId);
      s.totalReviews > 0 ==>
        s.fiveStar.value + s.fourStar.value + s.threeStar.value + s.twoStar.value + s.oneStar.value
        + Count(Rows(t.rows, t.nextId), Fractional(userId)) == s.totalReviews
  {
    var all := Rows(t.rows, t.nextId);
    forall x | x in all ensures ValidRating(x.rating) {
      var k :| k in t.rows && k < t.nextId && t.rows[k] == x;
    }
    CountNone(all, WholeUpTo(userId, 0));
    WholeUpToSum(all, userId, 5);
    CountDisjointUnion(all, Received(userId), WholeUpTo(userId, 5), Fractional(userId));
    assert StarSum(all, userId, 1) == Count(all, Stars(userId, 1));
    assert StarSum(all, userId, 2) == StarSum(all, userId, 1) + Count(all, Stars(userId, 2));
    assert StarSum(all, userId, 3) == StarSum(all, userId, 2) + Count(all, Stars(userId, 3));
    assert StarSum(all, userId, 4) == StarSum(all, userId, 3) + Count(all, Stars(userId, 4));
  }

  /** The average of `getUserStats` is NULL exactly for a user nobody
      reviewed, and otherwise lies in 1..5 after rounding. */
  lemma StatsAverageBounds(t: ReviewTable, userId: int)
    requires t.Valid()
    ensures var s := t.UserStats(userId);
      (s.averageRating.None? <==> s.totalReviews == 0)
      && (s.averageRating.Some? ==> 1.0 <= s.averageRating.value <= 5.0)
  {
    var all := Rows(t.rows, t.nextId);
    forall x | x in all ensures ValidRating(x.rating) {
      var k :| k in t.rows && k < t.nextId && t.rows[k] == x;
    }
    AverageRatingBounds(all, userId);
    var avg := AverageRating(all, userId);
    if avg.Some? {
      Round2Bounds(avg.value);
    }
  }

  /** When every rating a user received is a whole number, the five star
      buckets add up to the total. */
  lemma WholeBucketsSum(t: ReviewTable, userId: int)
    requires t.Valid()
    requires forall id :: id in t.rows && t.rows[id].revieweeId == userId ==> IsWhole(t.rows[id].rating)
    ensures var s := t.UserStats(userId);
      s.totalReviews > 0 ==>
        s.fiveStar.value + s.fourStar.value + s.threeStar.value + s.twoStar.value + s.oneStar.value == s.totalReviews
  {
    var all := Rows(t.rows, t.nextId);
    StarBucketsSum(t, userId);
    forall x | x in all ensures !Fractional(userId)(x) {
      var k :| k in t.rows && k < t.nextId && t.rows[k] == x;
    }
    CountNone(all, Fractional(userId));
  }
}
