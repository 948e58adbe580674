/** The reviews section: a list of reviews fetched once and kept current by
    `review_*` messages on a raw WebSocket, a star-rating display, and a
    modal form for writing a review. */
module Reviews {
  import opened Common
  import Text
  import Sync

  const ReviewEvents := Sync.EventNames("review_created", "review_updated", "review_deleted")

  /** A form field value: the initial rating is the number 5, every value an
      input or select reports is a string. */
  datatype FieldValue = Str(text: string) | Num(n: int)

  type Form = map<string, FieldValue>

  const EmptyForm: Form := map["name" := Str(""), "rating" := Num(5), "comment" := Str("")]

  datatype ReviewsState = ReviewsState(
    reviews: seq<Record>,
    loading: bool,
    error: string,
    modalOpen: bool,
    form: Form)

  const InitialState := ReviewsState([], true, "", false, EmptyForm)

  /** `socket.onmessage`: a message that is not JSON (`None`) is logged and
      dropped; a parsed message is dispatched on its `type`, and types other
      than the three review events leave the list alone. */
  function OnMessage(reviews: seq<Record>, message: Option<Sync.SocketEvent>): (r: seq<Record>)
    ensures message.None? ==> r == reviews
    ensures message.Some? && message.value.name == "review_created" ==> r == [message.value.payload] + reviews
    ensures message.Some? && message.value.name == "review_updated" ==> r == Sync.ApplyUpdated(reviews, message.value.payload)
    ensures message.Some? && message.value.name == "review_deleted" ==> r == Sync.ApplyDeleted(reviews, message.value.payload)
    ensures message.Some? && message.value.name !in {"review_created", "review_updated", "review_deleted"} ==> r == reviews
  {
    match message
    case None => reviews
    case Some(ev) => Sync.Deliver(reviews, ReviewEvents, Sync.Front, ev)
  }

  /** `'★'.repeat(rating) + '☆'.repeat(5 - rating)`; `None` when either
      count is negative and `repeat` throws a RangeError. */
  function Stars(rating: int): (r: Option<string>)
    ensures r.Some? <==> 0 <= rating <= 5
    ensures r.Some? ==> |r.value| == 5
    ensures r.Some? ==> forall i :: 0 <= i < 5 ==> r.value[i] == (if i < rating then '\U{2605}' else '\U{2606}')
  {
    match (Text.Repeat('\U{2605}', rating), Text.Repeat('\U{2606}', 5 - rating))
    case (Some(filled), Some(empty)) => Some(filled + empty)
    case _ => None
  }

  /** The number of filled stars in a rendering. */
  function FilledCount(s: string): nat
  {
    if s == [] then 0 else (if s[0] == '\U{2605}' then 1 else 0) + FilledCount(s[1..])
  }

  /** Reading the filled stars back gives the rating. */
  lemma StarsRoundTrip(rating: int)
    requires 0 <= rating <= 5
    ensures FilledCount(Stars(rating).value) == rating
  {
    FilledPrefix(Stars(rating).value, rating);
  }

  lemma {:induction false} FilledPrefix(s: string, k: nat)
    requires k <= |s|
    requires forall i :: 0 <= i < |s| ==> (s[i] == '\U{2605}' <==> i < k)
    ensures FilledCount(s) == k
    decreases |s|
  {
    if s != [] {
      var k' := if k > 0 then k - 1 else 0;
      assert forall i :: 0 <= i < |s[1..]| ==> s[1..][i] == s[i + 1];
      FilledPrefix(s[1..], k');
    }
  }

  /** `handleChange`: the named field takes the input's string value; every
      other field keeps its value. */
  function HandleChange(s: ReviewsState, name: string, value: string): (r: ReviewsState)
    ensures r.form.Keys == s.form.Keys + {name}
    ensures r.form[name] == Str(value)
    ensures forall k :: k in s.form && k != name ==> r.form[k] == s.form[k]
    ensures r.(form := s.form) == s
  {
    s.(form := s.form[name := Str(value)])
  }

  /** Later edits of one field win; edits of different fields commute. */
  lemma ChangesCommute(s: ReviewsState, a: string, va: string, b: string, vb: string)
    ensures a == b ==> HandleChange(HandleChange(s, a, va), b, vb) == HandleChange(s, b, vb)
    ensures a != b ==> HandleChange(HandleChange(s, a, va), b, vb) == HandleChange(HandleChange(s, b, vb), a, va)
  {
  }

  function OpenModal(s: ReviewsState): (r: ReviewsState)
    ensures r.modalOpen && r.(modalOpen := s.modalOpen) == s
  {
    s.(modalOpen := true)
  }

  /** `closeModal`: closed, the form back to its empty state, no error; the
      list is untouched. */
  function CloseModal(s: ReviewsState): (r: ReviewsState)
    ensures !r.modalOpen && r.form == EmptyForm && r.error == ""
    ensures r.reviews == s.reviews && r.loading == s.loading
  {
    s.(modalOpen := false, form := EmptyForm, error := "")
  }

  /** Whatever was typed, closing forgets it: closing is idempotent and
      erases every edit. */
  lemma CloseForgetsEdits(s: ReviewsState, name: string, value: string)
    ensures CloseModal(HandleChange(s, name, value)) == CloseModal(s)
    ensures CloseModal(CloseModal(s)) == CloseModal(s)
  {
  }

  /** Opening the modal on a fresh section, editing a field and closing it
      again leaves the section exactly as it started. */
  lemma {:induction false} OpenEditCloseFromStart(name: string, value: string)
    ensures InitialState.reviews == [] && InitialState.loading && !InitialState.modalOpen
    ensures CloseModal(HandleChange(OpenModal(InitialState), name, value)) == InitialState
  {
    CloseForgetsEdits(OpenModal(InitialState), name, value);
  }

  /** What posting the form produced. */
  datatype SubmitReply = Posted(success: bool) | PostThrew

  /** `handleSubmit`: the error is cleared first; success empties and closes
      the form, a refused post or a throw sets its message and keeps the form
      open and filled. The list itself is never touched: a new review only
      appears when its `review_created` message arrives. */
  function HandleSubmit(s: ReviewsState, x: SubmitReply): (r: ReviewsState)
    ensures r.reviews == s.reviews && r.loading == s.loading
    ensures x == Posted(true) ==> r.form == EmptyForm && !r.modalOpen && r.error == ""
    ensures x == Posted(false) ==> r == s.(error := "Failed to submit review")
    ensures x == PostThrew ==> r == s.(error := "Error submitting review. Please try again.")
  {
    var cleared := s.(error := "");
    match x
    case Posted(success) =>
      if success then cleared.(form := EmptyForm, modalOpen := false)
      else cleared.(error := "Failed to submit review")
    case PostThrew => cleared.(error := "Error submitting review. Please try again.")
  }

  /** What the initial `GET /reviews` produced. */
  datatype FetchReply = Fetched(success: bool, data: seq<Record>) | FetchThrew

  /** `fetchReviews`: a successful reply replaces the list; a failed one sets
      an error but keeps the list (and does not clear an earlier error on
      success); loading ends either way. */
  function FetchReviews(s: ReviewsState, x: FetchReply): (r: ReviewsState)
    ensures !r.loading && r.form == s.form && r.modalOpen == s.modalOpen
    ensures x.Fetched? && x.success ==> r.reviews == x.data && r.error == s.error
    ensures x.Fetched? && !x.success ==> r.reviews == s.reviews && r.error == "Failed to fetch reviews"
    ensures x.FetchThrew? ==> r.reviews == s.reviews && r.error == "Error loading reviews. Please try again later."
  {
    match x
    case Fetched(success, data) =>
      if success then s.(reviews := data, loading := false)
      else s.(error := "Failed to fetch reviews", loading := false)
    case FetchThrew => s.(error := "Error loading reviews. Please try again later.", loading := false)
  }
}
