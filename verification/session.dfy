/** The component as a whole: the user's actions and the remote store's
    replies as events on the component state, and the facts every sequence
    of them keeps. */
module Session {
  import opened Types
  import opened Catalog
  import opened RegistrationForm
  import opened Submission

  /** What can happen to the component after loading. */
  datatype Event =
    | Change(field: Field, value: string)
    | EditMember(roster: Roster, index: nat, memberField: MemberField, value: string)
    | PressNext
    | PressBack
    | PressSubmit
    | Reply(outcome: Outcome)

  /** One event. Member inputs exist only for the slots the lists hold, the
      submit button only on the third page, and a reply only arrives while
      a submit is in flight; anything else leaves the state as it is. */
  function Apply(s: AppState, acts: seq<Activity>, e: Event): (r: AppState)
    ensures ValidStep(s.step) ==> ValidStep(r.step)
    ensures r.teams != s.teams ==>
      e.Reply? && e.outcome.Success? && r.teams == s.teams + [e.outcome.team]
    ensures !e.Reply? ==> r.teams == s.teams
    ensures e.PressNext? || e.PressBack? ==> r.draft == s.draft && r.submitting == s.submitting
    ensures e.Change? || e.EditMember? ==> r.step == s.step && r.submitting == s.submitting
  {
    match e
    case Change(f, v) => s.(draft := HandleFormChange(s.draft, acts, f, v))
    case EditMember(roster, i, mf, v) =>
      if i < |Members(s.draft, roster)| then s.(draft := HandleMemberChange(s.draft, roster, i, mf, v))
      else s
    case PressNext => s.(step := Next(s.step, s.draft))
    case PressBack => s.(step := Back(s.step, s.draft, acts))
    case PressSubmit => if s.step == 3 then BeginSubmit(s, acts).0 else s
    case Reply(o) => if s.submitting then FinishSubmit(s, o) else s
  }

  /** A sequence of events, first to last. */
  function Run(s: AppState, acts: seq<Activity>, events: seq<Event>): AppState
    decreases |events|
  {
    if |events| == 0 then s else Run(Apply(s, acts, events[0]), acts, events[1..])
  }

  /** The number of successful replies among `events`. */
  function Successes(events: seq<Event>): nat {
    if |events| == 0 then 0
    else (if events[0].Reply? && events[0].outcome.Success? then 1 else 0) + Successes(events[1..])
  }

  /** The form never leaves its three steps. */
  lemma {:induction false} StepStaysValid(s: AppState, acts: seq<Activity>, events: seq<Event>)
    requires ValidStep(s.step)
    ensures ValidStep(Run(s, acts, events).step)
    decreases |events|
  {
    if |events| > 0 {
      StepStaysValid(Apply(s, acts, events[0]), acts, events[1..]);
    }
  }

  /** Teams are only ever appended: the loaded list stays a prefix, and the
      list grows by at most one team per successful reply. */
  lemma {:induction false} TeamsOnlyGrow(s: AppState, acts: seq<Activity>, events: seq<Event>)
    ensures s.teams <= Run(s, acts, events).teams
    ensures |Run(s, acts, events).teams| <= |s.teams| + Successes(events)
    decreases |events|
  {
    if |events| > 0 {
      var next := Apply(s, acts, events[0]);
      TeamsOnlyGrow(next, acts, events[1..]);
      assert s.teams <= next.teams;
    }
  }

  /** One event keeps the member lists sized for the chosen activity. */
  lemma ApplyPreservesFit(s: AppState, acts: seq<Activity>, e: Event)
    requires !HasId(acts, "")
    requires FitsActivity(s.draft, acts)
    ensures FitsActivity(Apply(s, acts, e).draft, acts)
  {
    match e
    case Change(f, v) =>
      EditsPreserveFit(s.draft, acts, f, v, Teachers, 0, FullName, "");
    case EditMember(roster, i, mf, v) =>
      EditsPreserveFit(s.draft, acts, ActivityId, "", roster, i, mf, v);
    case Reply(o) =>
      assert Find(acts, Initial.activityId).None?;
    case _ =>
  }

  /** Every state reached keeps its member lists sized for the chosen
      activity, provided no activity uses the empty identifier that the
      empty draft carries. */
  lemma {:induction false} MemberListsFitActivity(s: AppState, acts: seq<Activity>, events: seq<Event>)
    requires !HasId(acts, "")
    requires FitsActivity(s.draft, acts)
    ensures FitsActivity(Run(s, acts, events).draft, acts)
    decreases |events|
  {
    if |events| > 0 {
      ApplyPreservesFit(s, acts, events[0]);
      MemberListsFitActivity(Apply(s, acts, events[0]), acts, events[1..]);
    }
  }
}
