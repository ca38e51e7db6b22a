/**
 * The reducer of `state.challenge` (src/shared/reducers/challenge.js): five
 * action handlers, each returning a copy of the state with a few keys
 * replaced, and the initial state built for a server-side request.
 */
module ChallengeReducer {
  import opened Wrappers

  /** A key of the state object, which JavaScript may leave undefined (`Absent`). */
  datatype Field<T> = Absent | Present(value: T)

  /** A submission of the viewer, identified by `submissionId`. */
  datatype Submission = Submission(submissionId: string, status: string)

  /** `mySubmissions`: the `v2` list, or null while it is being fetched. */
  datatype MySubmissions = MySubmissions(v2: Option<seq<Submission>>)

  /**
   * The state; `D` is the type of the fetched challenge details and
   * `details: Present(None)` is `details: null`.
   */
  datatype State<D> = State(
    details: Field<Option<D>>,
    loadingDetails: Field<bool>,
    loadingMySubmissions: Field<bool>,
    mySubmissions: Field<MySubmissions>)

  /** `{}`: the state of the default reducer. */
  function EmptyState<D>(): State<D>
  {
    State(Absent, Absent, Absent, Absent)
  }

  /** The state `factory` starts from: filled in for a request, `{}` without one. */
  function InitialState<D>(hasRequest: bool): (s: State<D>)
    ensures hasRequest ==>
      s.details == Present(None) && s.loadingDetails == Present(false) &&
      s.loadingMySubmissions == Present(false) && s.mySubmissions == Present(MySubmissions(None))
    ensures !hasRequest ==> s == EmptyState()
  {
    if hasRequest then State(Present(None), Present(false), Present(false), Present(MySubmissions(None)))
    else EmptyState()
  }

  function FetchChallengeInit<D>(s: State<D>): (r: State<D>)
    ensures r.loadingDetails == Present(true) && r.details == Present(None)
    ensures r.loadingMySubmissions == s.loadingMySubmissions && r.mySubmissions == s.mySubmissions
  {
    s.(loadingDetails := Present(true), details := Present(None))
  }

  function FetchChallengeDone<D>(s: State<D>, payload: D): (r: State<D>)
    ensures r.details == Present(Some(payload)) && r.loadingDetails == Present(false)
    ensures r.loadingMySubmissions == s.loadingMySubmissions && r.mySubmissions == s.mySubmissions
  {
    s.(details := Present(Some(payload)), loadingDetails := Present(false))
  }

  function FetchSubmissionsInit<D>(s: State<D>): (r: State<D>)
    ensures r.loadingMySubmissions == Present(true) && r.mySubmissions == Present(MySubmissions(None))
    ensures r.details == s.details && r.loadingDetails == s.loadingDetails
  {
    s.(loadingMySubmissions := Present(true), mySubmissions := Present(MySubmissions(None)))
  }

  function FetchSubmissionsDone<D>(s: State<D>, payload: seq<Submission>): (r: State<D>)
    ensures r.loadingMySubmissions == Present(false) && r.mySubmissions == Present(MySubmissions(Some(payload)))
    ensures r.details == s.details && r.loadingDetails == s.loadingDetails
  {
    s.(loadingMySubmissions := Present(false), mySubmissions := Present(MySubmissions(Some(payload))))
  }

  /** The `filter` at lines 49-51: the submissions whose id is not `id`, in their order. */
  function RemoveSubmission(v2: seq<Submission>, id: string): (r: seq<Submission>)
    ensures |r| <= |v2|
    ensures forall x :: x in r <==> x in v2 && x.submissionId != id
    ensures forall x :: multiset(r)[x] == if x.submissionId != id then multiset(v2)[x] else 0
    decreases |v2|
  {
    if v2 == [] then []
    else
      assert v2 == [v2[0]] + v2[1..];
      if v2[0].submissionId != id then [v2[0]] + RemoveSubmission(v2[1..], id)
      else RemoveSubmission(v2[1..], id)
  }

  /** The handler reads `state.mySubmissions.v2.filter`, which fails unless `v2` is a list. */
  predicate CanDelete<D>(s: State<D>)
  {
    s.mySubmissions.Present? && s.mySubmissions.value.v2.Some?
  }

  function DeleteSubmissionDone<D>(s: State<D>, id: string): (r: State<D>)
    requires CanDelete(s)
    ensures r.mySubmissions == Present(MySubmissions(Some(RemoveSubmission(s.mySubmissions.value.v2.value, id))))
    ensures r.details == s.details && r.loadingDetails == s.loadingDetails
    ensures r.loadingMySubmissions == s.loadingMySubmissions
  {
    s.(mySubmissions := Present(MySubmissions(Some(RemoveSubmission(s.mySubmissions.value.v2.value, id)))))
  }

  /** The five actions the reducer handles, with their payloads. */
  datatype Action<D> =
    | FetchChallengeInitAction
    | FetchChallengeDoneAction(details: D)
    | FetchSubmissionsInitAction
    | FetchSubmissionsDoneAction(submissions: seq<Submission>)
    | DeleteSubmissionDoneAction(submissionId: string)

  predicate Applicable<D>(s: State<D>, a: Action<D>)
  {
    a.DeleteSubmissionDoneAction? ==> CanDelete(s)
  }

  function Reduce<D>(s: State<D>, a: Action<D>): State<D>
    requires Applicable(s, a)
  {
    match a
    case FetchChallengeInitAction => FetchChallengeInit(s)
    case FetchChallengeDoneAction(d) => FetchChallengeDone(s, d)
    case FetchSubmissionsInitAction => FetchSubmissionsInit(s)
    case FetchSubmissionsDoneAction(p) => FetchSubmissionsDone(s, p)
    case DeleteSubmissionDoneAction(id) => DeleteSubmissionDone(s, id)
  }

  /** The keys of the state. */
  datatype Key = DetailsKey | LoadingDetailsKey | LoadingMySubmissionsKey | MySubmissionsKey

  /** The keys a handler writes after spreading `...state`. */
  function Writes<D>(a: Action<D>): set<Key>
  {
    match a
    case FetchChallengeInitAction => {LoadingDetailsKey, DetailsKey}
    case FetchChallengeDoneAction(_) => {DetailsKey, LoadingDetailsKey}
    case FetchSubmissionsInitAction => {LoadingMySubmissionsKey, MySubmissionsKey}
    case FetchSubmissionsDoneAction(_) => {LoadingMySubmissionsKey, MySubmissionsKey}
    case DeleteSubmissionDoneAction(_) => {MySubmissionsKey}
  }

  /** Every handler keeps the keys it does not write. */
  lemma FieldIsolation<D>(s: State<D>, a: Action<D>)
    requires Applicable(s, a)
    ensures DetailsKey !in Writes(a) ==> Reduce(s, a).details == s.details
    ensures LoadingDetailsKey !in Writes(a) ==> Reduce(s, a).loadingDetails == s.loadingDetails
    ensures LoadingMySubmissionsKey !in Writes(a) ==> Reduce(s, a).loadingMySubmissions == s.loadingMySubmissions
    ensures MySubmissionsKey !in Writes(a) ==> Reduce(s, a).mySubmissions == s.mySubmissions
  {
  }

  /** A challenge fetch, start to finish, leaves the submission keys as they were. */
  lemma FetchChallengeCycle<D>(s: State<D>, payload: D)
    ensures FetchChallengeDone(FetchChallengeInit(s), payload) ==
      s.(details := Present(Some(payload)), loadingDetails := Present(false))
  {
  }

  /** A submission fetch followed by a deletion is the fetch of the filtered list. */
  lemma FetchSubmissionsThenDelete<D>(s: State<D>, payload: seq<Submission>, id: string)
    ensures CanDelete(FetchSubmissionsDone(s, payload))
    ensures DeleteSubmissionDone(FetchSubmissionsDone(s, payload), id) ==
      FetchSubmissionsDone(s, RemoveSubmission(payload, id))
  {
  }

  /** Removing a second time changes nothing. */
  lemma {:induction false} RemoveIdempotent(v2: seq<Submission>, id: string)
    ensures RemoveSubmission(RemoveSubmission(v2, id), id) == RemoveSubmission(v2, id)
    decreases |v2|
  {
    if v2 != [] {
      RemoveIdempotent(v2[1..], id);
      if v2[0].submissionId != id {
        assert RemoveSubmission(v2, id) == [v2[0]] + RemoveSubmission(v2[1..], id);
        assert ([v2[0]] + RemoveSubmission(v2[1..], id))[1..] == RemoveSubmission(v2[1..], id);
      }
    }
  }

  /** Removing an id no submission carries changes nothing. */
  lemma {:induction false} RemoveAbsent(v2: seq<Submission>, id: string)
    requires forall i :: 0 <= i < |v2| ==> v2[i].submissionId != id
    ensures RemoveSubmission(v2, id) == v2
    decreases |v2|
  {
    if v2 != [] {
      RemoveAbsent(v2[1..], id);
      assert v2 == [v2[0]] + v2[1..];
    }
  }

  /** Deletions of two ids give the same list in either order. */
  lemma {:induction false} RemoveCommutes(v2: seq<Submission>, a: string, b: string)
    ensures RemoveSubmission(RemoveSubmission(v2, a), b) == RemoveSubmission(RemoveSubmission(v2, b), a)
    decreases |v2|
  {
    if v2 != [] {
      RemoveCommutes(v2[1..], a, b);
      var x := v2[0];
      var ra, rb := RemoveSubmission(v2[1..], a), RemoveSubmission(v2[1..], b);
      if x.submissionId != a {
        assert RemoveSubmission(v2, a) == [x] + ra;
        assert ([x] + ra)[1..] == ra;
      }
      if x.submissionId != b {
        assert RemoveSubmission(v2, b) == [x] + rb;
        assert ([x] + rb)[1..] == rb;
      }
    }
  }

  /** `a` is `b` with some elements left out, the rest kept in their order. */
  predicate Subsequence(a: seq<Submission>, b: seq<Submission>)
    decreases |b|
  {
    if a == [] then true
    else if b == [] then false
    else (a[0] == b[0] && Subsequence(a[1..], b[1..])) || Subsequence(a, b[1..])
  }

  /** The kept submissions keep the order they had. */
  lemma {:induction false} RemoveKeepsOrder(v2: seq<Submission>, id: string)
    ensures Subsequence(RemoveSubmission(v2, id), v2)
    decreases |v2|
  {
    if v2 != [] {
      RemoveKeepsOrder(v2[1..], id);
      var tail := RemoveSubmission(v2[1..], id);
      if v2[0].submissionId != id {
        var r := [v2[0]] + tail;
        assert r[0] == v2[0] && r[1..] == tail;
      }
    }
  }

  /**
   * Neither initial state can take a deletion: `v2` is null with a request
   * and `mySubmissions` is undefined without one, so the handler would fail.
   */
  lemma InitialStateRejectsDelete<D>(hasRequest: bool)
    ensures !CanDelete(InitialState<D>(hasRequest))
  {
  }
}
