/** Submitting the draft. The request to the remote store is asynchronous,
    so a submit is two transitions: starting it (guard, payload, in-flight
    flag) and receiving its outcome (append and reset, or keep everything).
    The transport itself is abstracted to the outcome it delivers. */
module Submission {
  import opened Types
  import opened Catalog
  import opened RegistrationForm

  /** The body of the "addTeam" request: the draft's fields verbatim, with
      the three contact fields grouped. */
  datatype Payload = Payload(
    activityId: string,
    teamName: string,
    school: string,
    level: string,
    contact: Contact,
    teachers: seq<TeamMember>,
    students: seq<TeamMember>
  )

  /** What the remote store's reply amounts to: the created team, or a
      failure of any kind (transport error, non-OK status, non-success tag,
      missing data). */
  datatype Outcome = Success(team: Team) | Failure

  /** The component state the submit path reads and writes. The activity
      list is loaded once and never changes, so it is passed alongside. */
  datatype AppState = AppState(teams: seq<Team>, draft: Draft, step: int, submitting: bool)

  /** The state the component starts in once `teams` are loaded. */
  function Start(teams: seq<Team>): AppState {
    AppState(teams, Initial, FirstStep, false)
  }

  /** The request body built from the draft, field by field by name. */
  function BuildPayload(d: Draft): (r: Payload)
    ensures r.activityId == d.activityId && r.teamName == d.teamName
    ensures r.school == d.school && r.level == d.level
    ensures r.contact == Contact(d.contactName, d.contactPhone, d.contactEmail)
    ensures r.teachers == d.teachers && r.students == d.students
  {
    Payload(d.activityId, d.teamName, d.school, d.level,
            Contact(d.contactName, d.contactPhone, d.contactEmail),
            d.teachers, d.students)
  }

  /** Reading a draft back out of a payload. */
  function DraftOf(p: Payload): Draft {
    Draft(p.activityId, p.level, p.school, p.teamName,
          p.contact.name, p.contact.phone, p.contact.email,
          p.teachers, p.students)
  }

  /** The payload loses nothing of the draft and adds nothing to it: the two
      are in one-to-one correspondence. */
  lemma PayloadCopiesDraft(d: Draft, p: Payload)
    ensures DraftOf(BuildPayload(d)) == d
    ensures BuildPayload(DraftOf(p)) == p
  {
  }

  /** A submit may start: the draft's activity resolves and no submit is in
      flight. */
  predicate MayStart(s: AppState, acts: seq<Activity>) {
    Known(acts, s.draft.activityId) && !s.submitting
  }

  /** The submit handler up to the request: when it may start, it raises the
      in-flight flag and sends the draft as payload; otherwise it sends
      nothing and changes nothing. */
  function BeginSubmit(s: AppState, acts: seq<Activity>): (r: (AppState, Option<Payload>))
    ensures !MayStart(s, acts) ==> r.0 == s && r.1 == None
    ensures MayStart(s, acts) ==> r.1 == Some(BuildPayload(s.draft))
    ensures MayStart(s, acts) ==> r.0 == s.(submitting := true)
  {
    if MayStart(s, acts) then (s.(submitting := true), Some(BuildPayload(s.draft)))
    else (s, None)
  }

  /** The submit handler after the reply: on success the returned team is
      appended and the form returns to its first step with an empty draft;
      on failure only the in-flight flag drops. Either way the flag is down
      afterwards. */
  function FinishSubmit(s: AppState, outcome: Outcome): (r: AppState)
    ensures !r.submitting
    ensures outcome.Success? ==>
      && |r.teams| == |s.teams| + 1
      && r.teams[..|s.teams|] == s.teams
      && r.teams[|s.teams|] == outcome.team
      && r.draft == Initial && r.step == FirstStep
    ensures outcome.Failure? ==> r.teams == s.teams && r.draft == s.draft && r.step == s.step
  {
    match outcome
    case Success(t) => AppState(s.teams + [t], Initial, FirstStep, false)
    case Failure => s.(submitting := false)
  }

  /** A second press while a submit is in flight sends no request. */
  lemma SingleFlight(s: AppState, acts: seq<Activity>)
    requires s.submitting
    ensures BeginSubmit(s, acts) == (s, None)
  {
  }

  /** A failed submit leaves the component exactly as it was before the
      press, so the user can press again without re-entering anything. */
  lemma FailedSubmitRestores(s: AppState, acts: seq<Activity>)
    requires !s.submitting
    ensures FinishSubmit(BeginSubmit(s, acts).0, Failure) == s
  {
  }

  /** A successful submit adds the returned team once, at the end, and starts
      the form over; the team list is otherwise untouched. */
  lemma SucceededSubmitAppends(s: AppState, acts: seq<Activity>, t: Team)
    requires MayStart(s, acts)
    ensures FinishSubmit(BeginSubmit(s, acts).0, Success(t)) == Start(s.teams + [t])
  {
  }
}
