/**
 * The data derivation of the challenge-detail header
 * (`ChallengeHeader` in src/shared/components/challenge-detail/Header/index.jsx):
 * from a challenge record, the viewer's flags and the current time it works
 * out the phase index, the registration and submission flags, the track and
 * tag labels, the bonus line, the next deadline and its countdown, the
 * "relevant phases" timeline, the status message and the button gating.
 *
 * Timestamps are integer milliseconds; `now` is a parameter. The results
 * a component renders are returned as data.
 */
module ChallengeHeader {
  import opened Wrappers
  import opened Strings
  import Seqs

  /* Day and hour ranges in ms. */
  const HOUR_MS: int := 60 * 60 * 1000
  const DAY_MS: int := 24 * HOUR_MS

  const REGISTRATION: string := "Registration"
  const ITERATIVE_REVIEW: string := "Iterative Review"
  const DELETED: string := "Deleted"
  const CHECKPOINT: string := "checkpoint"
  const DATA_SCIENCE_TAG: string := "Data Science"
  const FIRST_2_FINISH: string := "FIRST_2_FINISH"
  const WINNERS_ID: int := -1
  const WINNERS_TYPE: string := "Winners"

  // ---------------------------------------------------------------------
  // Data model
  // ---------------------------------------------------------------------

  /** A phase of the challenge; `actualEndDate` is set once the phase has really ended. */
  datatype Phase = Phase(name: string, isOpen: bool, scheduledEndDate: int, actualEndDate: Option<int>)

  /** A prize set: its `type` and the values of its prizes, in order. */
  datatype PrizeSet = PrizeSet(kind: string, values: seq<int>)

  /** `challenge.tags` arrives either as a list or as one ", "-delimited string. */
  datatype Tags = TagList(items: seq<string>) | TagText(text: string)

  /**
   * The fields of the challenge record the header reads. An absent string is
   * "", an absent list is [], `userDetails` holds the statuses of the
   * viewer's submissions, `hasRoundId` is the truthiness of `roundId`.
   */
  datatype Challenge = Challenge(
    status: string,
    track: string,
    tags: Tags,
    eventNames: seq<string>,
    phases: seq<Phase>,
    prizeSets: seq<PrizeSet>,
    reliabilityBonus: Option<real>,
    userDetails: Option<seq<string>>,
    appealsEndDate: Option<int>,
    hasRoundId: bool)

  /** The viewer's flags passed to the component. */
  datatype Flags = Flags(
    hasRegistered: bool,
    registering: bool,
    unregistering: bool,
    submissionEnded: bool,
    showDeadlineDetail: bool)

  /**
   * Results of helpers outside the component: `getChallengeSubTrack`,
   * `isMM`, and whether `reliabilityBonus.toFixed()` is "0".
   */
  datatype Foreign = Foreign(subTrack: string, isMM: bool, reliabilityRoundsToZero: bool)

  // ---------------------------------------------------------------------
  // Phase index: phases keyed by camel-cased name, later phases overwrite
  // ---------------------------------------------------------------------

  function PhaseKey(p: Phase): string
  {
    CamelCase(p.name)
  }

  /** The last phase of `ps` whose key is `k`, if any. */
  function LastWithKey(ps: seq<Phase>, k: string): (r: Option<Phase>)
    ensures r.None? <==> forall i :: 0 <= i < |ps| ==> PhaseKey(ps[i]) != k
    ensures r.Some? ==>
      exists i :: 0 <= i < |ps| && ps[i] == r.value && PhaseKey(ps[i]) == k &&
        forall j :: i < j < |ps| ==> PhaseKey(ps[j]) != k
    decreases |ps|
  {
    if ps == [] then None
    else if PhaseKey(ps[|ps| - 1]) == k then Some(ps[|ps| - 1])
    else
      var r := LastWithKey(ps[..|ps| - 1], k);
      LastWithKeyExtend(ps, k, r);
      r
  }

  /** A last element with another key does not change what `LastWithKey` finds. */
  lemma LastWithKeyExtend(ps: seq<Phase>, k: string, r: Option<Phase>)
    requires |ps| > 0 && PhaseKey(ps[|ps| - 1]) != k
    requires var init := ps[..|ps| - 1];
      (r.None? <==> forall i :: 0 <= i < |init| ==> PhaseKey(init[i]) != k) &&
      (r.Some? ==>
         exists i :: 0 <= i < |init| && init[i] == r.value && PhaseKey(init[i]) == k &&
           forall j :: i < j < |init| ==> PhaseKey(init[j]) != k)
    ensures r.None? <==> forall i :: 0 <= i < |ps| ==> PhaseKey(ps[i]) != k
    ensures r.Some? ==>
      exists i :: 0 <= i < |ps| && ps[i] == r.value && PhaseKey(ps[i]) == k &&
        forall j :: i < j < |ps| ==> PhaseKey(ps[j]) != k
  {
    var init := ps[..|ps| - 1];
    assert forall i :: 0 <= i < |init| ==> init[i] == ps[i];
    if r.Some? {
      var i :| 0 <= i < |init| && init[i] == r.value && PhaseKey(init[i]) == k &&
         forall j :: i < j < |init| ==> PhaseKey(init[j]) != k;
      assert ps[i] == r.value;
    }
  }

  /** The `forEach` that fills the `phases` object: last write wins. */
  method BuildIndex(all: seq<Phase>) returns (index: map<string, Phase>)
    ensures forall k :: k in index <==> LastWithKey(all, k).Some?
    ensures forall k :: k in index ==> index[k] == LastWithKey(all, k).value
    ensures all == [] ==> index == map[]
  {
    index := map[];
    var i := 0;
    while i < |all|
      invariant 0 <= i <= |all|
      invariant forall k :: k in index <==> LastWithKey(all[..i], k).Some?
      invariant forall k :: k in index ==> index[k] == LastWithKey(all[..i], k).value
    {
      assert all[..i + 1][..i] == all[..i];
      index := index[PhaseKey(all[i]) := all[i]];
      i := i + 1;
    }
    assert all[..|all|] == all;
  }

  // ---------------------------------------------------------------------
  // Eligibility
  // ---------------------------------------------------------------------

  /**
   * `registrationEnded`: closed by default; when the status is not exactly
   * "Completed" and a `registration` entry exists, closed iff that phase is
   * not open.
   */
  function RegistrationEnded(status: string, regPhase: Option<Phase>): bool
  {
    if status != "Completed" && regPhase.Some? then !regPhase.value.isOpen else true
  }

  /** Lines 92-103: build the index, then look up its `registration` entry. */
  method RegistrationEndedOf(status: string, all: seq<Phase>) returns (registrationEnded: bool)
    ensures registrationEnded == RegistrationEnded(status, LastWithKey(all, "registration"))
  {
    var phases := BuildIndex(all);
    registrationEnded := true;
    var regPhase: Option<Phase> := if "registration" in phases then Some(phases["registration"]) else None;
    if status != "Completed" && regPhase.Some? {
      registrationEnded := !regPhase.value.isOpen;
    }
  }

  /** The registration phase the index yields is the last phase keyed "registration". */
  lemma RegistrationEndedFromPhases(status: string, all: seq<Phase>)
    ensures var reg := LastWithKey(all, "registration");
      RegistrationEnded(status, reg) <==>
        (status == "Completed" || reg.None? ||
         exists i :: 0 <= i < |all| && PhaseKey(all[i]) == "registration" && !all[i].isOpen &&
           forall j :: i < j < |all| ==> PhaseKey(all[j]) != "registration")
  {
    var reg := LastWithKey(all, "registration");
    if reg.Some? {
      var i :| 0 <= i < |all| && all[i] == reg.value && PhaseKey(all[i]) == "registration" &&
        forall j :: i < j < |all| ==> PhaseKey(all[j]) != "registration";
      if exists i' :: 0 <= i' < |all| && PhaseKey(all[i']) == "registration" && !all[i'].isOpen &&
           forall j :: i' < j < |all| ==> PhaseKey(all[j]) != "registration" {
        var i' :| 0 <= i' < |all| && PhaseKey(all[i']) == "registration" && !all[i'].isOpen &&
           forall j :: i' < j < |all| ==> PhaseKey(all[j]) != "registration";
        LastKeyIsUnique(all, "registration", i');
      }
    }
  }

  /** A phase with key `k` that no later phase shares is the one `LastWithKey` finds. */
  lemma LastKeyIsUnique(ps: seq<Phase>, k: string, i: int)
    requires 0 <= i < |ps| && PhaseKey(ps[i]) == k
    requires forall j :: i < j < |ps| ==> PhaseKey(ps[j]) != k
    ensures LastWithKey(ps, k) == Some(ps[i])
  {
    var i0 :| 0 <= i0 < |ps| && ps[i0] == LastWithKey(ps, k).value && PhaseKey(ps[i0]) == k &&
      forall j :: i0 < j < |ps| ==> PhaseKey(ps[j]) != k;
    assert !(i0 < i) && !(i < i0);
  }

  /** The fold at line 126: true as soon as one status is not "Deleted". */
  function AnyLive(statuses: seq<string>): (r: bool)
    ensures r <==> exists i :: 0 <= i < |statuses| && statuses[i] != DELETED
    decreases |statuses|
  {
    if statuses == [] then false
    else
      var init := statuses[..|statuses| - 1];
      assert forall i :: 0 <= i < |init| ==> init[i] == statuses[i];
      AnyLive(init) || statuses[|statuses| - 1] != DELETED
  }

  /** `hasSubmissions`: user details are present and some submission is not deleted. */
  function HasSubmissions(userDetails: Option<seq<string>>): (r: bool)
    ensures r <==> (userDetails.Some? &&
      exists i :: 0 <= i < |userDetails.value| && userDetails.value[i] != DELETED)
    ensures userDetails.Some? && userDetails.value == [] ==> !r
  {
    userDetails.Some? && AnyLive(userDetails.value)
  }

  function IsLegacyMatch(isMM: bool, hasRoundId: bool): bool
  {
    isMM && hasRoundId
  }

  /** `disabled` of the Unregister button. */
  function UnregisterDisabled(unregistering: bool, registrationEnded: bool, hasSubmissions: bool, legacy: bool): bool
  {
    unregistering || registrationEnded || hasSubmissions || legacy
  }

  /** `disabled` of the Register button. */
  function RegisterDisabled(registering: bool, registrationEnded: bool, legacy: bool): bool
  {
    registering || registrationEnded || legacy
  }

  /** `disabled` of the Submit button. */
  function SubmitDisabled(hasRegistered: bool, unregistering: bool, submissionEnded: bool, legacy: bool): bool
  {
    !hasRegistered || unregistering || submissionEnded || legacy
  }

  /**
   * Once the status is exactly "Completed", or no phase is keyed
   * "registration", neither Register nor Unregister is enabled, whatever the
   * flags.
   */
  lemma ClosedRegistrationBlocksBoth(status: string, all: seq<Phase>, registering: bool,
                                     unregistering: bool, hasSubmissions: bool, legacy: bool)
    requires status == "Completed" || LastWithKey(all, "registration").None?
    ensures var ended := RegistrationEnded(status, LastWithKey(all, "registration"));
      RegisterDisabled(registering, ended, legacy) &&
      UnregisterDisabled(unregistering, ended, hasSubmissions, legacy)
  {
  }

  /**
   * Register is enabled exactly when the viewer is not already registering,
   * the status is not "Completed", the last phase keyed "registration" is
   * open, and the challenge is not a legacy match.
   */
  lemma RegisterEnabledIff(c: Challenge, f: Flags, ext: Foreign)
    ensures var reg := LastWithKey(c.phases, "registration");
      !RegisterDisabled(f.registering, RegistrationEnded(c.status, reg), IsLegacyMatch(ext.isMM, c.hasRoundId))
      <==> !f.registering && c.status != "Completed" && reg.Some? && reg.value.isOpen &&
           !(ext.isMM && c.hasRoundId)
  {
  }

  /**
   * Unregister additionally needs every submission of the viewer deleted;
   * one live submission keeps it disabled.
   */
  lemma LiveSubmissionBlocksUnregister(c: Challenge, f: Flags, ext: Foreign, i: int)
    requires c.userDetails.Some? && 0 <= i < |c.userDetails.value| && c.userDetails.value[i] != DELETED
    ensures UnregisterDisabled(f.unregistering,
                               RegistrationEnded(c.status, LastWithKey(c.phases, "registration")),
                               HasSubmissions(c.userDetails), IsLegacyMatch(ext.isMM, c.hasRoundId))
  {
  }

  /** Submit needs a registered viewer; a legacy match is never submittable. */
  lemma SubmitGating(hasRegistered: bool, unregistering: bool, submissionEnded: bool, isMM: bool, hasRoundId: bool)
    ensures !SubmitDisabled(hasRegistered, unregistering, submissionEnded, IsLegacyMatch(isMM, hasRoundId))
      <==> hasRegistered && !unregistering && !submissionEnded && !(isMM && hasRoundId)
  {
  }

  // ---------------------------------------------------------------------
  // Track and tags
  // ---------------------------------------------------------------------

  /**
   * `tags.includes(t)` on `challenge.tags || []`: list membership for a
   * list, substring search for a non-empty string.
   */
  function TagsInclude(tags: Tags, t: string): bool
  {
    match tags
    case TagList(items) => t in items
    case TagText(text) => text != "" && Contains(text, t)
  }

  /** The track label: "datasci" for Data Science tags, else the lower-cased track, else "design". */
  function TrackLower(track: string, tags: Tags): (r: string)
    ensures TagsInclude(tags, DATA_SCIENCE_TAG) ==> r == "datasci"
    ensures !TagsInclude(tags, DATA_SCIENCE_TAG) && track == "" ==> r == "design"
    ensures !TagsInclude(tags, DATA_SCIENCE_TAG) && track != "" ==> r == Lower(track)
    ensures forall i :: 0 <= i < |r| ==> !IsUpperAscii(r[i])
  {
    if TagsInclude(tags, DATA_SCIENCE_TAG) then "datasci"
    else if track != "" then
      LowerHasNoUpper(track);
      Lower(track)
    else "design"
  }

  /** The tags as a list: a list as given, a non-empty string split at ", ", and "" as no tags. */
  function TagItems(tags: Tags): seq<string>
  {
    match tags
    case TagList(items) => items
    case TagText(text) => if text == "" then [] else Split(text)
  }

  /** `miscTags`: the tags without repetitions, first occurrences kept in order. */
  function MiscTags(tags: Tags): (r: seq<string>)
    ensures forall t :: t in r <==> t in TagItems(tags)
    ensures forall i, j :: 0 <= i < j < |r| ==> r[i] != r[j]
    ensures forall i, j :: 0 <= i < j < |r| ==>
      FirstIndex(TagItems(tags), r[i]) < FirstIndex(TagItems(tags), r[j])
  {
    Dedup(TagItems(tags))
  }

  /** Splitting a tag string loses nothing: its pieces join back to the string. */
  lemma TagTextRoundTrip(text: string)
    requires text != ""
    ensures |TagItems(TagText(text))| >= 1 && Join(TagItems(TagText(text))) == text
  {
    JoinSplit(text);
  }

  /** A tag list without repetitions is shown as given. */
  lemma DistinctTagListKept(items: seq<string>)
    requires forall i, j :: 0 <= i < j < |items| ==> items[i] != items[j]
    ensures MiscTags(TagList(items)) == items
  {
    DedupOfDistinct(items);
  }

  /** `eventNames`: every event name upper-cased, one per event. */
  function EventNames(names: seq<string>): (r: seq<string>)
    ensures |r| == |names|
    ensures forall i :: 0 <= i < |r| ==> r[i] == Upper(names[i])
    ensures forall i, k :: 0 <= i < |r| && 0 <= k < |r[i]| ==> !IsLowerAscii(r[i][k])
  {
    var r := seq(|names|, i requires 0 <= i < |names| => Upper(names[i]));
    assert forall i :: 0 <= i < |r| ==> forall k :: 0 <= k < |r[i]| ==> !IsLowerAscii(r[i][k]) by {
      forall i | 0 <= i < |r| {
        UpperHasNoLower(names[i]);
      }
    }
    r
  }

  // ---------------------------------------------------------------------
  // Bonus
  // ---------------------------------------------------------------------

  /** `_.find(prizeSets, { type: 'checkpoint' })`: the first checkpoint prize set. */
  function FindCheckpoint(sets: seq<PrizeSet>): (r: Option<PrizeSet>)
    ensures r.None? <==> forall i :: 0 <= i < |sets| ==> sets[i].kind != CHECKPOINT
    ensures r.Some? ==>
      exists k :: 0 <= k < |sets| && sets[k] == r.value && r.value.kind == CHECKPOINT &&
        forall j :: 0 <= j < k ==> sets[j].kind != CHECKPOINT
    decreases |sets|
  {
    if sets == [] then None
    else if sets[0].kind == CHECKPOINT then Some(sets[0])
    else
      var tail := sets[1..];
      assert forall i :: 0 <= i < |tail| ==> tail[i] == sets[i + 1];
      FindCheckpoint(tail)
  }

  /** The source reads the first prize of a checkpoint set without checking that one exists. */
  predicate CheckpointPrizesPresent(sets: seq<PrizeSet>)
  {
    FindCheckpoint(sets).Some? ==> |FindCheckpoint(sets).value.values| > 0
  }

  datatype Bonus = NoBonus | CheckpointBonus(prize: int, count: nat) | ReliabilityBonus(bonus: real)

  /** A checkpoint set exists whose count and first prize are both non-zero. */
  predicate QualifiesForCheckpointBonus(sets: seq<PrizeSet>)
    requires CheckpointPrizesPresent(sets)
  {
    var cp := FindCheckpoint(sets);
    cp.Some? && |cp.value.values| != 0 && cp.value.values[0] != 0
  }

  /** `bonusType` with the amount and count shown beside it. */
  function ClassifyBonus(sets: seq<PrizeSet>, reliability: Option<real>, roundsToZero: bool): (b: Bonus)
    requires CheckpointPrizesPresent(sets)
    ensures b.CheckpointBonus? <==> QualifiesForCheckpointBonus(sets)
    ensures b.CheckpointBonus? ==>
      b.prize == FindCheckpoint(sets).value.values[0] && b.count == |FindCheckpoint(sets).value.values|
    ensures b.ReliabilityBonus? <==>
      !QualifiesForCheckpointBonus(sets) && reliability.Some? && reliability.value != 0.0 && !roundsToZero
    ensures b.ReliabilityBonus? ==> b.bonus == reliability.value
  {
    var cp := FindCheckpoint(sets);
    if cp.Some? && |cp.value.values| != 0 && cp.value.values[0] != 0 then
      CheckpointBonus(cp.value.values[0], |cp.value.values|)
    else if reliability.Some? && reliability.value != 0.0 && !roundsToZero then
      ReliabilityBonus(reliability.value)
    else
      NoBonus
  }

  /** Checkpoint precedence: when the checkpoint bonus applies, the reliability bonus plays no part. */
  lemma CheckpointPrecedence(sets: seq<PrizeSet>, r1: Option<real>, z1: bool, r2: Option<real>, z2: bool)
    requires CheckpointPrizesPresent(sets) && QualifiesForCheckpointBonus(sets)
    ensures ClassifyBonus(sets, r1, z1) == ClassifyBonus(sets, r2, z2)
    ensures ClassifyBonus(sets, r1, z1).CheckpointBonus?
  {
  }

  // ---------------------------------------------------------------------
  // Next deadline and countdown
  // ---------------------------------------------------------------------

  predicate IsDeadlineCandidate(p: Phase)
  {
    p.name != REGISTRATION && p.isOpen
  }

  /**
   * `p` is what a stable sort by scheduled end puts first among the open
   * non-registration phases: a candidate with the least scheduled end, and
   * no earlier candidate in `ps` ends as early.
   */
  ghost predicate IsEarliestDeadline(ps: seq<Phase>, p: Phase)
  {
    exists k :: 0 <= k < |ps| && ps[k] == p && IsDeadlineCandidate(p) &&
      (forall j :: 0 <= j < |ps| && IsDeadlineCandidate(ps[j]) ==> p.scheduledEndDate <= ps[j].scheduledEndDate) &&
      (forall j :: 0 <= j < k && IsDeadlineCandidate(ps[j]) ==> p.scheduledEndDate < ps[j].scheduledEndDate)
  }

  /** The filter-sort-first expression at line 128. */
  function EarliestOpen(ps: seq<Phase>): (r: Option<Phase>)
    ensures r.None? <==> forall i :: 0 <= i < |ps| ==> !IsDeadlineCandidate(ps[i])
    ensures r.Some? ==> IsEarliestDeadline(ps, r.value)
    decreases |ps|
  {
    if ps == [] then None
    else
      var rest := EarliestOpen(ps[1..]);
      EarliestStep(ps, rest);
      if IsDeadlineCandidate(ps[0]) && (rest.None? || ps[0].scheduledEndDate <= rest.value.scheduledEndDate) then
        Some(ps[0])
      else
        rest
  }

  /** One step of `EarliestOpen`: the head wins ties against the earliest of the tail. */
  lemma EarliestStep(ps: seq<Phase>, rest: Option<Phase>)
    requires |ps| > 0
    requires rest.None? <==> forall i :: 0 <= i < |ps[1..]| ==> !IsDeadlineCandidate(ps[1..][i])
    requires rest.Some? ==> IsEarliestDeadline(ps[1..], rest.value)
    ensures IsDeadlineCandidate(ps[0]) && (rest.None? || ps[0].scheduledEndDate <= rest.value.scheduledEndDate) ==>
      IsEarliestDeadline(ps, ps[0])
    ensures !(IsDeadlineCandidate(ps[0]) && (rest.None? || ps[0].scheduledEndDate <= rest.value.scheduledEndDate)) ==>
      (rest.None? <==> forall i :: 0 <= i < |ps| ==> !IsDeadlineCandidate(ps[i])) &&
      (rest.Some? ==> IsEarliestDeadline(ps, rest.value))
  {
    var tail := ps[1..];
    assert forall i :: 0 <= i < |tail| ==> tail[i] == ps[i + 1];
    if rest.Some? {
      var k :| 0 <= k < |tail| && tail[k] == rest.value && IsDeadlineCandidate(rest.value) &&
        (forall j :: 0 <= j < |tail| && IsDeadlineCandidate(tail[j]) ==> rest.value.scheduledEndDate <= tail[j].scheduledEndDate) &&
        (forall j :: 0 <= j < k && IsDeadlineCandidate(tail[j]) ==> rest.value.scheduledEndDate < tail[j].scheduledEndDate);
      EarliestFromTail(ps, rest.value, k);
    } else {
      assert forall j :: 0 < j < |ps| ==> !IsDeadlineCandidate(ps[j]);
    }
  }

  /** The tail's earliest deadline, found at `k + 1`, against the head `ps[0]`. */
  lemma EarliestFromTail(ps: seq<Phase>, p: Phase, k: int)
    requires 0 <= k < |ps| - 1 && ps[k + 1] == p && IsDeadlineCandidate(p)
    requires forall j :: 1 <= j < |ps| && IsDeadlineCandidate(ps[j]) ==> p.scheduledEndDate <= ps[j].scheduledEndDate
    requires forall j :: 1 <= j < k + 1 && IsDeadlineCandidate(ps[j]) ==> p.scheduledEndDate < ps[j].scheduledEndDate
    ensures IsDeadlineCandidate(ps[0]) && ps[0].scheduledEndDate <= p.scheduledEndDate ==> IsEarliestDeadline(ps, ps[0])
    ensures !(IsDeadlineCandidate(ps[0]) && ps[0].scheduledEndDate <= p.scheduledEndDate) ==> IsEarliestDeadline(ps, p)
  {
  }

  /** `nextPhase`: undefined, the empty object `{}`, or a phase. */
  datatype NextPhase = NoPhase | EmptyPhase | NextOf(phase: Phase)

  /**
   * The registered-viewer override at lines 129-131 looks at position 0 of
   * the raw phase list, not at the phase named "Registration" wherever it is.
   */
  predicate OverrideApplies(all: seq<Phase>, hasRegistered: bool)
  {
    hasRegistered && |all| > 0 && all[0].name == REGISTRATION
  }

  function SelectNextPhase(all: seq<Phase>, hasRegistered: bool): (r: NextPhase)
    ensures OverrideApplies(all, hasRegistered) ==>
      r == if |all| > 1 then NextOf(all[1]) else EmptyPhase
    ensures !OverrideApplies(all, hasRegistered) ==>
      && !r.EmptyPhase?
      && (r.NoPhase? <==> forall i :: 0 <= i < |all| ==> !IsDeadlineCandidate(all[i]))
      && (r.NextOf? ==> IsEarliestDeadline(all, r.phase))
  {
    if OverrideApplies(all, hasRegistered) then
      if |all| > 1 then NextOf(all[1]) else EmptyPhase
    else
      match EarliestOpen(all)
      case None => NoPhase
      case Some(p) => NextOf(p)
  }

  /** `timeLeft` in ms: until the next phase's scheduled end, never negative, 0 without an end. */
  function TimeLeft(next: NextPhase, now: int): nat
  {
    if next.NextOf? && next.phase.scheduledEndDate > now then next.phase.scheduledEndDate - now else 0
  }

  function Max(a: int, b: int): int { if a < b then b else a }

  /**
   * The countdown is max(0, end - now) for a phase, 0 for no phase or the
   * empty object, and it runs down by exactly the elapsed time until it
   * reaches 0.
   */
  lemma TimeLeftIsRemaining(next: NextPhase, now: int, elapsed: nat)
    ensures TimeLeft(next, now) == if next.NextOf? then Max(0, next.phase.scheduledEndDate - now) else 0
    ensures TimeLeft(next, now + elapsed) == Max(0, TimeLeft(next, now) - elapsed)
  {
  }

  /** The duration format: "D[d] H[h]", "H[h] m[min]" or "m[min] s[s]". */
  datatype CountdownFormat = DaysHours | HoursMinutes | MinutesSeconds

  function FormatFor(timeLeft: int): (f: CountdownFormat)
    ensures f == DaysHours <==> timeLeft > DAY_MS
    ensures f == HoursMinutes <==> HOUR_MS < timeLeft <= DAY_MS
    ensures f == MinutesSeconds <==> timeLeft <= HOUR_MS
  {
    if timeLeft > DAY_MS then DaysHours
    else if timeLeft > HOUR_MS then HoursMinutes
    else MinutesSeconds
  }

  function Coarseness(f: CountdownFormat): nat
  {
    match f
    case MinutesSeconds => 0
    case HoursMinutes => 1
    case DaysHours => 2
  }

  /** More time left never gives a finer format; the thresholds are strict. */
  lemma FormatMonotone(t1: int, t2: int)
    requires t1 <= t2
    ensures Coarseness(FormatFor(t1)) <= Coarseness(FormatFor(t2))
    ensures FormatFor(DAY_MS + 1) == DaysHours && FormatFor(DAY_MS) == HoursMinutes
    ensures FormatFor(HOUR_MS + 1) == HoursMinutes && FormatFor(HOUR_MS) == MinutesSeconds
  {
  }

  // ---------------------------------------------------------------------
  // Relevant phases timeline
  // ---------------------------------------------------------------------

  /** `actualEndDate || scheduledEndDate`. */
  function EffectiveEnd(p: Phase): int
  {
    if p.actualEndDate.Some? then p.actualEndDate.value else p.scheduledEndDate
  }

  predicate IsRegistrationNamed(p: Phase)
  {
    Contains(Lower(p.name), "registration")
  }

  /** The filter at lines 150-164. */
  predicate IsRelevant(p: Phase, now: int)
  {
    if p.name == ITERATIVE_REVIEW then EffectiveEnd(p) > now
    else
      var l := Lower(p.name);
      if Contains(l, "screening") || Contains(l, "specification") then false
      else Contains(l, "registration") || Contains(l, "checkpoint") || Contains(l, "submission") || Contains(l, "review")
  }

  function RelevantOf(all: seq<Phase>, now: int): seq<Phase>
  {
    Seqs.Filter(all, p => IsRelevant(p, now))
  }

  /** A phase is kept exactly when it is in the challenge and passes the name/date rules. */
  lemma RelevantOfMembers(all: seq<Phase>, now: int, p: Phase)
    ensures p in RelevantOf(all, now) <==>
      p in all &&
      ((p.name == ITERATIVE_REVIEW && EffectiveEnd(p) > now) ||
       (p.name != ITERATIVE_REVIEW &&
        !Contains(Lower(p.name), "screening") && !Contains(Lower(p.name), "specification") &&
        (Contains(Lower(p.name), "registration") || Contains(Lower(p.name), "checkpoint") ||
         Contains(Lower(p.name), "submission") || Contains(Lower(p.name), "review"))))
  {
    if p in all && IsRelevant(p, now) {
      Seqs.FilterKeeps(all, p => IsRelevant(p, now), p);
    }
  }

  /** `a` may stand before `b`: registration-named phases first, the others by effective end. */
  predicate InOrder(a: Phase, b: Phase)
  {
    Seqs.InOrderBy(a, b, IsRegistrationNamed, EffectiveEnd)
  }

  predicate TimelineOrdered(s: seq<Phase>)
  {
    Seqs.FirstThenAscending(s, IsRegistrationNamed, EffectiveEnd)
  }

  /**
   * The in-place `relevantPhases.sort` at lines 166-175: a permutation in
   * which registration-named phases come first and the others ascend by
   * effective end.
   */
  method SortTimeline(xs: seq<Phase>) returns (ys: seq<Phase>)
    ensures multiset(ys) == multiset(xs)
    ensures TimelineOrdered(ys)
  {
    ys := Seqs.SortFirstThenAscending(xs, IsRegistrationNamed, EffectiveEnd);
  }

  /** `endPhaseDate`: `Math.max` of an empty list is minus infinity. */
  datatype Bound = NegInfinity | Finite(ms: int)

  predicate IsClosedIterativeReview(p: Phase)
  {
    p.name == ITERATIVE_REVIEW && !p.isOpen
  }

  /** The latest scheduled end among the closed "Iterative Review" phases (lines 177-178). */
  function LatestClosedIterativeReview(ps: seq<Phase>): (b: Bound)
    ensures b.NegInfinity? <==> forall i :: 0 <= i < |ps| ==> !IsClosedIterativeReview(ps[i])
    ensures b.Finite? ==>
      (exists i :: 0 <= i < |ps| && IsClosedIterativeReview(ps[i]) && ps[i].scheduledEndDate == b.ms) &&
      (forall i :: 0 <= i < |ps| && IsClosedIterativeReview(ps[i]) ==> ps[i].scheduledEndDate <= b.ms)
    decreases |ps|
  {
    if ps == [] then NegInfinity
    else
      var tail := ps[1..];
      assert forall i :: 0 <= i < |tail| ==> tail[i] == ps[i + 1];
      var rest := LatestClosedIterativeReview(tail);
      if !IsClosedIterativeReview(ps[0]) then
        assert rest.Finite? ==> exists i :: 0 <= i < |ps| && IsClosedIterativeReview(ps[i]) && ps[i].scheduledEndDate == rest.ms by {
          if rest.Finite? {
            var i :| 0 <= i < |tail| && IsClosedIterativeReview(tail[i]) && tail[i].scheduledEndDate == rest.ms;
            assert ps[i + 1] == tail[i];
          }
        }
        rest
      else if rest.NegInfinity? || rest.ms < ps[0].scheduledEndDate then
        Finite(ps[0].scheduledEndDate)
      else
        assert exists i :: 0 <= i < |ps| && IsClosedIterativeReview(ps[i]) && ps[i].scheduledEndDate == rest.ms by {
          var i :| 0 <= i < |tail| && IsClosedIterativeReview(tail[i]) && tail[i].scheduledEndDate == rest.ms;
          assert ps[i + 1] == tail[i];
        }
        rest
  }

  /** The re-filter at lines 179-180: registration-named, or scheduled strictly before the bound. */
  predicate KeptForFirst2Finish(p: Phase, endPhaseDate: Bound)
  {
    IsRegistrationNamed(p) || (endPhaseDate.Finite? && p.scheduledEndDate < endPhaseDate.ms)
  }

  function KeepForFirst2Finish(ps: seq<Phase>, endPhaseDate: Bound): seq<Phase>
  {
    Seqs.Filter(ps, p => KeptForFirst2Finish(p, endPhaseDate))
  }

  predicate IsFirst2FinishCompleted(subTrack: string, status: string)
  {
    subTrack == FIRST_2_FINISH && status == "COMPLETED"
  }

  /**
   * What the timeline `shown` and the synthetic Winners entry `winners`
   * (its scheduled end) must be.
   */
  ghost predicate IsTimeline(all: seq<Phase>, show: bool, subTrack: string, status: string,
                             appealsEnd: Option<int>, now: int, shown: seq<Phase>, winners: Option<Bound>)
  {
    && (!show ==> shown == [] && winners.None?)
    && (show ==> TimelineOrdered(shown))
    && (show && IsFirst2FinishCompleted(subTrack, status) ==>
          && multiset(shown) == multiset(KeepForFirst2Finish(RelevantOf(all, now), LatestClosedIterativeReview(all)))
          && winners == Some(LatestClosedIterativeReview(all)))
    && (show && !IsFirst2FinishCompleted(subTrack, status) ==>
          && multiset(shown) == multiset(RelevantOf(all, now))
          && (winners.Some? <==>
                |shown| > 1 && appealsEnd.Some? && EffectiveEnd(shown[|shown| - 1]) < appealsEnd.value)
          && (winners.Some? ==> winners.value == Finite(appealsEnd.value)))
  }

  /** The re-filter of a sorted permutation is a sorted permutation of the re-filter. */
  lemma RefilterKeepsTimeline(sorted: seq<Phase>, filtered: seq<Phase>, endPhaseDate: Bound)
    requires multiset(sorted) == multiset(filtered) && TimelineOrdered(sorted)
    ensures multiset(KeepForFirst2Finish(sorted, endPhaseDate)) == multiset(KeepForFirst2Finish(filtered, endPhaseDate))
    ensures TimelineOrdered(KeepForFirst2Finish(sorted, endPhaseDate))
  {
    Seqs.FilterPermutation(sorted, filtered, p => KeptForFirst2Finish(p, endPhaseDate));
    Seqs.FilterPairwise(sorted, p => KeptForFirst2Finish(p, endPhaseDate), InOrder);
  }

  /** `relevantPhases`, lines 147-200, with the pushed Winners entry returned apart. */
  method RelevantPhases(all: seq<Phase>, show: bool, subTrack: string, status: string,
                        appealsEnd: Option<int>, now: int)
    returns (shown: seq<Phase>, winners: Option<Bound>)
    ensures IsTimeline(all, show, subTrack, status, appealsEnd, now, shown, winners)
  {
    shown, winners := [], None;
    if show {
      var filtered := RelevantOf(all, now);
      shown := SortTimeline(filtered);
      if IsFirst2FinishCompleted(subTrack, status) {
        var endPhaseDate := LatestClosedIterativeReview(all);
        var sorted := shown;
        shown := KeepForFirst2Finish(sorted, endPhaseDate);
        RefilterKeepsTimeline(sorted, filtered, endPhaseDate);
        winners := Some(endPhaseDate);
      } else if |shown| > 1 && appealsEnd.Some? {
        var lastPhaseTime := EffectiveEnd(shown[|shown| - 1]);
        if lastPhaseTime < appealsEnd.value {
          winners := Some(Finite(appealsEnd.value));
        }
      }
    }
  }

  /**
   * In the ascending timeline, the last phase ends no earlier than any
   * non-registration phase; so the appeals rule compares the appeals end
   * with the latest phase end whenever a non-registration phase is shown.
   */
  lemma LastIsLatest(shown: seq<Phase>, i: int)
    requires TimelineOrdered(shown)
    requires 0 <= i < |shown| && !IsRegistrationNamed(shown[i])
    ensures !IsRegistrationNamed(shown[|shown| - 1])
    ensures EffectiveEnd(shown[i]) <= EffectiveEnd(shown[|shown| - 1])
  {
    if i < |shown| - 1 {
      assert InOrder(shown[i], shown[|shown| - 1]);
    }
  }

  /**
   * In the completed first-to-finish timeline every shown phase is
   * registration-named or scheduled before the latest closed Iterative
   * Review; with no closed Iterative Review only registration phases remain.
   */
  lemma First2FinishKeepsEarlyPhases(all: seq<Phase>, subTrack: string, status: string,
                                     appealsEnd: Option<int>, now: int, shown: seq<Phase>, winners: Option<Bound>, p: Phase)
    requires IsTimeline(all, true, subTrack, status, appealsEnd, now, shown, winners)
    requires IsFirst2FinishCompleted(subTrack, status) && p in shown
    ensures p in all && IsRelevant(p, now)
    ensures KeptForFirst2Finish(p, LatestClosedIterativeReview(all))
    ensures LatestClosedIterativeReview(all).NegInfinity? ==> IsRegistrationNamed(p)
  {
    var bound := LatestClosedIterativeReview(all);
    var kept := KeepForFirst2Finish(RelevantOf(all, now), bound);
    assert p in multiset(shown);
    assert p in kept;
    var k :| 0 <= k < |kept| && kept[k] == p;
    assert KeptForFirst2Finish(p, bound);
    assert p in RelevantOf(all, now);
    RelevantOfMembers(all, now, p);
  }

  /** One shown entry of the deadlines panel. */
  datatype Entry = PhaseEntry(phase: Phase) | WinnersEntry(id: int, phaseType: string, scheduledEnd: Bound)

  /** The array the panel receives: the shown phases, then the Winners entry if one was pushed. */
  function TimelineEntries(shown: seq<Phase>, winners: Option<Bound>): (r: seq<Entry>)
    ensures |r| == |shown| + (if winners.Some? then 1 else 0)
    ensures forall i :: 0 <= i < |shown| ==> r[i] == PhaseEntry(shown[i])
    ensures winners.Some? ==> r[|r| - 1] == WinnersEntry(WINNERS_ID, WINNERS_TYPE, winners.value)
    ensures forall i :: 0 <= i < |r| - 1 ==> r[i].PhaseEntry?
  {
    seq(|shown|, i requires 0 <= i < |shown| => PhaseEntry(shown[i])) +
    (if winners.Some? then [WinnersEntry(WINNERS_ID, WINNERS_TYPE, winners.value)] else [])
  }

  // ---------------------------------------------------------------------
  // Status message
  // ---------------------------------------------------------------------

  /** `nextDeadlineMsg`: the label of the next deadline, a finished notice, or the status. */
  datatype DeadlineMessage = NextDeadline(deadline: string) | Finished | StatusLine(status: string)

  function DeadlineLabel(next: NextPhase): (r: string)
    ensures r != ""
    ensures next.NextOf? && next.phase.name != "" ==> r == next.phase.name
    ensures !(next.NextOf? && next.phase.name != "") ==> r == "-"
  {
    if next.NextOf? && next.phase.name != "" then next.phase.name else "-"
  }

  /** The switch at lines 205-237 on the lower-cased status. */
  function Message(status: string, next: NextPhase): (m: DeadlineMessage)
    ensures m.NextDeadline? <==> Lower(status) == "active"
    ensures m.Finished? <==> Lower(status) == "completed"
    ensures m.NextDeadline? ==> m.deadline == DeadlineLabel(next)
    ensures m.StatusLine? ==> m.status == status
  {
    match Lower(status)
    case "active" => NextDeadline(DeadlineLabel(next))
    case "completed" => Finished
    case _ => StatusLine(status)
  }

  /** The message depends on the status only up to letter case. */
  lemma MessageIgnoresCase(s1: string, s2: string, next: NextPhase)
    requires Lower(s1) == Lower(s2)
    ensures Message(s1, next).NextDeadline? == Message(s2, next).NextDeadline?
    ensures Message(s1, next).Finished? == Message(s2, next).Finished?
    ensures Message(s1, next).NextDeadline? ==> Message(s1, next) == Message(s2, next)
  {
  }

  // ---------------------------------------------------------------------
  // The whole derivation
  // ---------------------------------------------------------------------

  datatype HeaderView = HeaderView(
    trackLower: string,
    eventNames: seq<string>,
    miscTags: seq<string>,
    bonus: Bonus,
    registrationEnded: bool,
    hasSubmissions: bool,
    nextPhase: NextPhase,
    timeLeft: nat,
    format: CountdownFormat,
    shownPhases: seq<Phase>,
    winners: Option<Bound>,
    message: DeadlineMessage,
    unregisterDisabled: bool,
    registerDisabled: bool,
    submitDisabled: bool)

  /** `ChallengeHeader` up to the returned markup. */
  method DeriveHeader(c: Challenge, f: Flags, ext: Foreign, now: int) returns (v: HeaderView)
    requires CheckpointPrizesPresent(c.prizeSets)
    ensures v.trackLower == TrackLower(c.track, c.tags)
    ensures v.eventNames == EventNames(c.eventNames)
    ensures v.miscTags == MiscTags(c.tags)
    ensures v.bonus == ClassifyBonus(c.prizeSets, c.reliabilityBonus, ext.reliabilityRoundsToZero)
    ensures v.registrationEnded == RegistrationEnded(c.status, LastWithKey(c.phases, "registration"))
    ensures v.hasSubmissions == HasSubmissions(c.userDetails)
    ensures v.nextPhase == SelectNextPhase(c.phases, f.hasRegistered)
    ensures v.timeLeft == TimeLeft(v.nextPhase, now)
    ensures v.format == FormatFor(v.timeLeft)
    ensures IsTimeline(c.phases, f.showDeadlineDetail, ext.subTrack, c.status, c.appealsEndDate, now,
                       v.shownPhases, v.winners)
    ensures v.message == Message(c.status, v.nextPhase)
    ensures var legacy := IsLegacyMatch(ext.isMM, c.hasRoundId);
      && v.unregisterDisabled == UnregisterDisabled(f.unregistering, v.registrationEnded, v.hasSubmissions, legacy)
      && v.registerDisabled == RegisterDisabled(f.registering, v.registrationEnded, legacy)
      && v.submitDisabled == SubmitDisabled(f.hasRegistered, f.unregistering, f.submissionEnded, legacy)
  {
    var allPhases := c.phases;
    var bonus := ClassifyBonus(c.prizeSets, c.reliabilityBonus, ext.reliabilityRoundsToZero);

    var registrationEnded := RegistrationEndedOf(c.status, allPhases);
    var trackLower := TrackLower(c.track, c.tags);
    var hasSubmissions := HasSubmissions(c.userDetails);
    var nextPhase := SelectNextPhase(allPhases, f.hasRegistered);
    var timeLeft := TimeLeft(nextPhase, now);
    var format := FormatFor(timeLeft);

    var shown, winners := RelevantPhases(allPhases, f.showDeadlineDetail, ext.subTrack, c.status, c.appealsEndDate, now);

    var legacy := IsLegacyMatch(ext.isMM, c.hasRoundId);
    v := HeaderView(
      trackLower, EventNames(c.eventNames), MiscTags(c.tags), bonus,
      registrationEnded, hasSubmissions, nextPhase, timeLeft, format,
      shown, winners, Message(c.status, nextPhase),
      UnregisterDisabled(f.unregistering, registrationEnded, hasSubmissions, legacy),
      RegisterDisabled(f.registering, registrationEnded, legacy),
      SubmitDisabled(f.hasRegistered, f.unregistering, f.submissionEnded, legacy));
  }
}
