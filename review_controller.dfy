/** The handlers of `controllers/reviewController.js`.  They run inside
    `asyncHandler`, so their refusals are the typed errors they throw, and
    an error from SQLite travels on unchanged. */
module ReviewController {
  import opened Common
  import opened Schema
  import Text
  import Queries
  import Users
  import Projects
  import Reviews

  /** The `rating` of a request body: left out, JSON `null`, or a number. */
  datatype RatingInput = Absent | JsonNull | Number(value: real)

  /** `rating < 1 || rating > 5`: `null` compares as 0 and is refused, a
      missing rating compares false with both bounds and gets through. */
  predicate OutOfRange(rating: RatingInput) {
    match rating
    case Absent => false
    case JsonNull => true
    case Number(x) => x < 1.0 || x > 5.0
  }

  /** The value the driver binds for the rating: NULL when it is missing. */
  function Bind(rating: RatingInput): (r: Option<real>)
    ensures r.Some? <==> rating.Number?
    ensures r.Some? ==> r.value == rating.value
  {
    if rating.Number? then Some(rating.value) else None
  }

  /** The checks of `createReview`, in order. */
  function CreateGuard(reviews: Reviews.ReviewTable, projects: Projects.ProjectTable, reviewerId: int,
                       revieweeId: int, projectId: int, rating: RatingInput): (r: Outcome)
    requires reviews.Valid()
    reads reviews, projects
    ensures rating.JsonNull? || (rating.Number? && !ValidRating(rating.value)) ==>
      r == Fail(ValidationError("Rating must be between 1 and 5"))
    ensures r.Pass? <==>
      (rating.Absent? || (rating.Number? && ValidRating(rating.value)))
      && Reviews.CanReview(projects, reviewerId, revieweeId, projectId)
      && reviews.FindByProjectAndReviewer(projectId, reviewerId).None?
    ensures (rating.Absent? || (rating.Number? && ValidRating(rating.value)))
            && !Reviews.CanReview(projects, reviewerId, revieweeId, projectId)
            ==> r == Fail(ForbiddenError("You can only review users you have completed projects with"))
  {
    if OutOfRange(rating) then
      Fail(ValidationError("Rating must be between 1 and 5"))
    else if !Reviews.CanReview(projects, reviewerId, revieweeId, projectId) then
      Fail(ForbiddenError("You can only review users you have completed projects with"))
    else if reviews.FindByProjectAndReviewer(projectId, reviewerId).Some? then
      Fail(ValidationError("You have already reviewed this project"))
    else Pass
  }

  /** `createReview`: after the checks, one review is stored (or the
      table's constraints refuse it) and read back.  Reviews created this
      way never give a reviewer two reviews of one project. */
  method CreateReview(reviews: Reviews.ReviewTable, projects: Projects.ProjectTable, accounts: map<nat, Users.User>,
                      reviewerId: int, projectId: int, revieweeId: int, rating: RatingInput, title: Option<string>,
                      comment: Option<string>, category: Option<string>, now: Time)
    returns (r: Result<Option<Reviews.Review>>)
    requires reviews.Valid()
    modifies reviews
    ensures reviews.Valid()
    ensures old(CreateGuard(reviews, projects, reviewerId, revieweeId, projectId, rating)).Fail? ==>
      r == Err(old(CreateGuard(reviews, projects, reviewerId, revieweeId, projectId, rating)).error)
    ensures r.Err? ==> reviews.rows == old(reviews.rows)
    ensures r.Ok? <==>
      old(CreateGuard(reviews, projects, reviewerId, revieweeId, projectId, rating)).Pass?
      && rating.Number? && Reviews.CategoryOrDefault(category).Some?
    ensures r.Ok? ==>
      var review := Reviews.Review(old(reviews.nextId), projectId, reviewerId, revieweeId, rating.value, title,
                                   comment, Reviews.CategoryOrDefault(category).value, now, now);
      reviews.rows == old(reviews.rows)[review.id := review]
      && r.value == reviews.FindById(accounts, review.id)
    ensures old(Reviews.OnePerReviewer(reviews.rows)) ==> Reviews.OnePerReviewer(reviews.rows)
  {
    var guard := CreateGuard(reviews, projects, reviewerId, revieweeId, projectId, rating);
    if guard.Fail? {
      return Err(guard.error);
    }
    ghost var before := reviews.rows;
    assert forall k :: k in before ==> !(before[k].projectId == projectId && before[k].reviewerId == reviewerId);
    var created := reviews.Create(projectId, reviewerId, revieweeId, Bind(rating), title, comment, category, now);
    if created.Err? {
      return Err(created.error);
    }
    if Reviews.OnePerReviewer(before) {
      Reviews.OnePerReviewerInsert(before, created.value, reviews.rows[created.value]);
    }
    return Ok(reviews.FindById(accounts, created.value));
  }

  /** `minRating ? parseInt(minRating) : null`. */
  function MinRatingParam(s: Option<string>): (r: Option<int>)
    ensures !Truthy(s) ==> r.None?
    ensures Truthy(s) ==> r == Text.ParseInt(s.value)
  {
    if Truthy(s) then Text.ParseInt(s.value) else None
  }

  /** The answer of the two handlers that list received reviews, without
      the per-category breakdown. */
  datatype ReceivedPage = ReceivedPage(stats: Reviews.Stats, count: nat, reviews: seq<Reviews.Review>)

  /** `getUserReviews`: `limit` and `offset` default to 20 and 0 and go
      through `parseInt`; a `NaN` one makes SQLite refuse the query. */
  function GetUserReviews(reviews: Reviews.ReviewTable, accounts: map<nat, Users.User>, userId: int,
                          limit: Option<string>, offset: Option<string>, minRating: Option<string>)
    : (r: Result<ReceivedPage>)
    reads reviews
    ensures r.Ok? <==> Text.IntParam(limit, 20).Some? && Text.IntParam(offset, 0).Some?
    ensures r.Err? ==> r.error == Failure("datatype mismatch")
    ensures r.Ok? ==>
      var l := Text.IntParam(limit, 20).value;
      r.value.stats == reviews.UserStats(userId) && r.value.count == |r.value.reviews|
      && (l >= 0 ==> r.value.count <= l)
      && (forall x :: x in r.value.reviews ==> x in reviews.rows.Values && x.revieweeId == userId)
      && Queries.IsWindow(r.value.reviews, Queries.Rows(reviews.rows, reviews.nextId),
                          Reviews.ReceivedFilter(accounts, userId, MinRatingParam(minRating)), Reviews.NewestFirst,
                          l, Text.IntParam(offset, 0).value)
      && (Truthy(minRating) && Text.ParseInt(minRating.value).Some? && Text.ParseInt(minRating.value).value != 0 ==>
            forall x :: x in r.value.reviews ==> x.rating >= Text.ParseInt(minRating.value).value as real)
  {
    var l := Text.IntParam(limit, 20);
    var o := Text.IntParam(offset, 0);
    if l.None? || o.None? then Err(Failure("datatype mismatch"))
    else
      var found := reviews.FindByUserId(accounts, userId, l.value, o.value, MinRatingParam(minRating));
      Ok(ReceivedPage(reviews.UserStats(userId), |found|, found))
  }

  /** `getMyReceivedReviews`: `getUserReviews` for the caller, with no
      rating floor. */
  function GetMyReceivedReviews(reviews: Reviews.ReviewTable, accounts: map<nat, Users.User>, callerId: int,
                                limit: Option<string>, offset: Option<string>): (r: Result<ReceivedPage>)
    reads reviews
    ensures r.Ok? <==> Text.IntParam(limit, 20).Some? && Text.IntParam(offset, 0).Some?
    ensures r.Ok? ==>
      r.value.stats == reviews.UserStats(callerId)
      && (forall x :: x in r.value.reviews ==> x in reviews.rows.Values && x.revieweeId == callerId)
      && Queries.IsWindow(r.value.reviews, Queries.Rows(reviews.rows, reviews.nextId),
                          Reviews.ReceivedFilter(accounts, callerId, None), Reviews.NewestFirst,
                          Text.IntParam(limit, 20).value, Text.IntParam(offset, 0).value)
  {
    GetUserReviews(reviews, accounts, callerId, limit, offset, None)
  }

  /** `getMyGivenReviews`: one page of the reviews the caller wrote. */
  function GetMyGivenReviews(reviews: Reviews.ReviewTable, accounts: map<nat, Users.User>, callerId: int,
                             limit: Option<string>, offset: Option<string>): (r: Result<seq<Reviews.Review>>)
    reads reviews
    ensures r.Ok? <==> Text.IntParam(limit, 20).Some? && Text.IntParam(offset, 0).Some?
    ensures r.Err? ==> r.error == Failure("datatype mismatch")
    ensures r.Ok? ==>
      var l := Text.IntParam(limit, 20).value;
      (l >= 0 ==> |r.value| <= l)
      && (forall x :: x in r.value ==> x in reviews.rows.Values && x.reviewerId == callerId)
      && Queries.IsWindow(r.value, Queries.Rows(reviews.rows, reviews.nextId), Reviews.GivenFilter(accounts, callerId),
                          Reviews.NewestFirst, l, Text.IntParam(offset, 0).value)
  {
    var l := Text.IntParam(limit, 20);
    var o := Text.IntParam(offset, 0);
    if l.None? || o.None? then Err(Failure("datatype mismatch"))
    else Ok(reviews.FindByReviewerId(accounts, callerId, l.value, o.value))
  }

  /** `getReviewById`. */
  function GetReviewById(reviews: Reviews.ReviewTable, accounts: map<nat, Users.User>, id: int)
    : (r: Result<Reviews.Review>)
    reads reviews
    ensures r.Ok? <==> reviews.FindById(accounts, id).Some?
    ensures r.Ok? ==> r.value == reviews.rows[id]
    ensures r.Err? ==> r.error == NotFoundError("Review not found")
  {
    match reviews.FindById(accounts, id)
    case None => Err(NotFoundError("Review not found"))
    case Some(review) => Ok(review)
  }

  /** The checks of `updateReview`, in order.  The range check only looks
      at a truthy rating, so `0` passes it; a missing rating and `null`
      are both `None`, which `COALESCE` treats alike. */
  function UpdateGuard(reviews: Reviews.ReviewTable, accounts: map<nat, Users.User>, callerId: int, id: int,
                       rating: Option<real>): (r: Outcome)
    reads reviews
    ensures reviews.FindById(accounts, id).None? ==> r == Fail(NotFoundError("Review not found"))
    ensures reviews.FindById(accounts, id).Some? && reviews.rows[id].reviewerId != callerId ==>
      r == Fail(ForbiddenError("You can only update your own reviews"))
    ensures r.Pass? <==>
      reviews.FindById(accounts, id).Some? && reviews.rows[id].reviewerId == callerId
      && (rating.None? || rating.value == 0.0 || ValidRating(rating.value))
  {
    match reviews.FindById(accounts, id)
    case None => Fail(NotFoundError("Review not found"))
    case Some(review) =>
      if review.reviewerId != callerId then Fail(ForbiddenError("You can only update your own reviews"))
      else if rating.Some? && rating.value != 0.0 && (rating.value < 1.0 || rating.value > 5.0) then
        Fail(ValidationError("Rating must be between 1 and 5"))
      else Pass
  }

  /** `updateReview`: only the reviewer may change a review, and fields
      left out keep their values.  A rating of `0` gets past the handler
      and is refused by the table's CHECK. */
  method UpdateReview(reviews: Reviews.ReviewTable, accounts: map<nat, Users.User>, callerId: int, id: int,
                      rating: Option<real>, title: Option<string>, comment: Option<string>, now: Time)
    returns (r: Result<Option<Reviews.Review>>)
    requires reviews.Valid()
    modifies reviews
    ensures reviews.Valid()
    ensures old(UpdateGuard(reviews, accounts, callerId, id, rating)).Fail? ==>
      r == Err(old(UpdateGuard(reviews, accounts, callerId, id, rating)).error)
    ensures r.Err? ==> reviews.rows == old(reviews.rows)
    ensures r.Ok? <==>
      old(UpdateGuard(reviews, accounts, callerId, id, rating)).Pass? && (rating.None? || rating.value != 0.0)
    ensures r.Ok? ==>
      var x := old(reviews.rows[id]);
      reviews.rows == old(reviews.rows)[id := x.(rating := rating.GetOr(x.rating),
                                                 title := if title.Some? then title else x.title,
                                                 comment := if comment.Some? then comment else x.comment,
                                                 updatedAt := now)]
      && r.value == Some(reviews.rows[id]) && r.value.value.reviewerId == callerId
  {
    var guard := UpdateGuard(reviews, accounts, callerId, id, rating);
    if guard.Fail? {
      return Err(guard.error);
    }
    var updated := reviews.Update(id, rating, title, comment, now);
    if updated.Err? {
      return Err(updated.error);
    }
    return Ok(reviews.FindById(accounts, id));
  }

  /** `deleteReview`: the reviewer or an admin removes the review. */
  method DeleteReview(reviews: Reviews.ReviewTable, accounts: map<nat, Users.User>, callerId: int, role: Role, id: int)
    returns (r: Outcome)
    requires reviews.Valid()
    modifies reviews
    ensures reviews.Valid()
    ensures old(reviews.FindById(accounts, id)).None? ==> r == Fail(NotFoundError("Review not found"))
    ensures r.Pass? <==>
      old(reviews.FindById(accounts, id)).Some? && (old(reviews.rows[id].reviewerId) == callerId || role == Admin)
    ensures old(reviews.FindById(accounts, id)).Some? && r.Fail? ==>
      r == Fail(ForbiddenError("You can only delete your own reviews"))
    ensures reviews.rows == if r.Pass? then old(reviews.rows) - {id as nat} else old(reviews.rows)
  {
    var review := reviews.FindById(accounts, id);
    if review.None? {
      return Fail(NotFoundError("Review not found"));
    }
    if review.value.reviewerId != callerId && role != Admin {
      return Fail(ForbiddenError("You can only delete your own reviews"));
    }
    var _ := reviews.Delete(id);
    return Pass;
  }
}
