/** The ContentView schema (models/ContentView.js): a student's view of a
    content item, with its defaults, the bounds of the feedback rating, and
    the unique index on (content, student). The collection is a class whose
    insert enforces the index. */
module ContentViewModel {
  import opened Common

  datatype ViewInput = ViewInput(
    content: Option<Id>,
    student: Option<Id>,
    viewedAt: Option<nat>,
    completedAt: Option<nat>,
    isCompleted: Option<bool>,
    timeSpent: Option<int>,
    rating: Option<int>,
    comments: Option<string>,
    submittedAt: Option<nat>)

  datatype ContentView = ContentView(
    content: Id,
    student: Id,
    viewedAt: nat,
    completedAt: Option<nat>,
    isCompleted: bool,
    timeSpent: int,
    rating: Option<int>,
    comments: Option<string>,
    submittedAt: Option<nat>)

  /** The rating validators: `min: 1`, `max: 5`; an absent rating is not checked. */
  predicate RatingInRange(rating: Option<int>) {
    rating.None? || 1 <= rating.value <= 5
  }

  /** Validating a view at time `now`: `content` and `student` are required and
      the rating must lie in [1, 5]; `viewedAt` defaults to now, `isCompleted`
      to false and `timeSpent` to 0. */
  function Validate(v: ViewInput, now: nat): (r: Result<ContentView>)
    ensures r.Ok? <==> v.content.Some? && v.student.Some? && RatingInRange(v.rating)
    ensures r.Fail? ==> r.status == ServerError
    ensures r.Ok? ==> r.value.content == v.content.value && r.value.student == v.student.value
    ensures r.Ok? ==> r.value.rating == v.rating && RatingInRange(r.value.rating)
    ensures r.Ok? && v.isCompleted.None? ==> !r.value.isCompleted
    ensures r.Ok? && v.timeSpent.None? ==> r.value.timeSpent == 0
    ensures r.Ok? && v.viewedAt.None? ==> r.value.viewedAt == now
  {
    if v.content.None? || v.student.None? || !RatingInRange(v.rating) then Fail(ServerError)
    else Ok(ContentView(v.content.value, v.student.value,
                        if v.viewedAt.Some? then v.viewedAt.value else now,
                        v.completedAt,
                        if v.isCompleted.Some? then v.isCompleted.value else false,
                        if v.timeSpent.Some? then v.timeSpent.value else 0,
                        v.rating, v.comments, v.submittedAt))
  }

  /** At most one view per (content, student) pair. */
  predicate UniquePairs(views: seq<ContentView>) {
    forall i, j :: 0 <= i < j < |views| ==>
      (views[i].content, views[i].student) != (views[j].content, views[j].student)
  }

  predicate HasPair(views: seq<ContentView>, content: Id, student: Id) {
    exists i :: 0 <= i < |views| && views[i].content == content && views[i].student == student
  }

  class ViewStore {
    var views: seq<ContentView>

    predicate Valid()
      reads this
    {
      UniquePairs(views) && forall i :: 0 <= i < |views| ==> RatingInRange(views[i].rating)
    }

    constructor ()
      ensures views == [] && Valid()
    {
      views := [];
    }

    /** Saving a new view: validation first, then the unique index refuses a
      second view of the same content by the same student. */
    method Insert(v: ViewInput, now: nat) returns (r: Result<ContentView>)
      requires Valid()
      modifies this
      ensures Valid()
      ensures r.Ok? <==> Validate(v, now).Ok? && !HasPair(old(views), v.content.value, v.student.value)
      ensures r.Ok? ==> r == Validate(v, now) && views == old(views) + [r.value]
      ensures r.Fail? ==> views == old(views)
    {
      var checked := Validate(v, now);
      if checked.Fail? {
        return checked;
      }
      var doc := checked.value;
      if exists i :: 0 <= i < |views| && views[i].content == doc.content && views[i].student == doc.student {
        return Fail(ServerError);
      }
      views := views + [doc];
      return checked;
    }
  }
}
