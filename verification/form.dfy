/** The registration form: a draft record edited field by field and member
    by member, and a step counter moved by the "next" and "back" buttons of
    the three form pages. */
module RegistrationForm {
  import opened Types
  import opened Catalog

  /** The form's working copy of a team registration. */
  datatype Draft = Draft(
    activityId: string,
    level: string,
    school: string,
    teamName: string,
    contactName: string,
    contactPhone: string,
    contactEmail: string,
    teachers: seq<TeamMember>,
    students: seq<TeamMember>
  )

  /** The draft the form starts with, and returns to after a successful submit. */
  const Initial: Draft := Draft("", "", "", "", "", "", "", [], [])

  /** The step the form starts on. */
  const FirstStep: int := 1

  /** The text inputs and selects the form's change handler serves, by name. */
  datatype Field = ActivityId | Level | School | TeamName | ContactName | ContactPhone | ContactEmail

  function Get(d: Draft, f: Field): string {
    match f
    case ActivityId => d.activityId
    case Level => d.level
    case School => d.school
    case TeamName => d.teamName
    case ContactName => d.contactName
    case ContactPhone => d.contactPhone
    case ContactEmail => d.contactEmail
  }

  /** `{...prev, [name]: value}`: one text field replaced. */
  function Set(d: Draft, f: Field, v: string): (r: Draft)
    ensures Get(r, f) == v
    ensures forall g :: g != f ==> Get(r, g) == Get(d, g)
    ensures r.teachers == d.teachers && r.students == d.students
  {
    match f
    case ActivityId => d.(activityId := v)
    case Level => d.(level := v)
    case School => d.(school := v)
    case TeamName => d.(teamName := v)
    case ContactName => d.(contactName := v)
    case ContactPhone => d.(contactPhone := v)
    case ContactEmail => d.(contactEmail := v)
  }

  /** An unfilled member slot. */
  const Blank: TeamMember := TeamMember("", "")

  /** `n` unfilled member slots. */
  function Placeholders(n: nat): (r: seq<TeamMember>)
    ensures |r| == n
    ensures forall i :: 0 <= i < |r| ==> r[i] == Blank
  {
    seq(n, _ => Blank)
  }

  /** The change handler of the form's inputs. Choosing an activity that
      resolves also clears the level and lays out exactly as many empty
      teacher and student slots as the activity's team composition asks
      for; any other change touches only the field that changed. */
  function HandleFormChange(d: Draft, acts: seq<Activity>, f: Field, v: string): (r: Draft)
    ensures f != ActivityId || !Known(acts, v) ==>
      && Get(r, f) == v
      && (forall g :: g != f ==> Get(r, g) == Get(d, g))
      && r.teachers == d.teachers && r.students == d.students
    ensures f == ActivityId && Known(acts, v) ==>
      var c := Find(acts, v).value.teamComposition;
      && r.activityId == v
      && r.level == ""
      && |r.teachers| == c.teachers && (forall i :: 0 <= i < |r.teachers| ==> r.teachers[i] == Blank)
      && |r.students| == c.students && (forall i :: 0 <= i < |r.students| ==> r.students[i] == Blank)
      && r.school == d.school && r.teamName == d.teamName
      && r.contactName == d.contactName && r.contactPhone == d.contactPhone
      && r.contactEmail == d.contactEmail
  {
    var changed := Set(d, f, v);
    if f == ActivityId then
      match Find(acts, v)
      case None => changed
      case Some(a) =>
        changed.(activityId := v, level := "",
                 teachers := Placeholders(a.teamComposition.teachers),
                 students := Placeholders(a.teamComposition.students))
    else changed
  }

  /** Which member list an edit goes to. */
  datatype Roster = Teachers | Students

  /** Which half of a member an edit changes. */
  datatype MemberField = FullName | Detail

  function Members(d: Draft, roster: Roster): seq<TeamMember> {
    match roster
    case Teachers => d.teachers
    case Students => d.students
  }

  function GetMember(m: TeamMember, mf: MemberField): string {
    match mf
    case FullName => m.fullName
    case Detail => m.detail
  }

  /** The change handler of a member input: one half of one slot of one list
      is replaced, and nothing else in the draft moves. */
  function HandleMemberChange(d: Draft, roster: Roster, i: nat, mf: MemberField, v: string): (r: Draft)
    requires i < |Members(d, roster)|
    ensures |Members(r, roster)| == |Members(d, roster)|
    ensures GetMember(Members(r, roster)[i], mf) == v
    ensures forall g :: g != mf ==> GetMember(Members(r, roster)[i], g) == GetMember(Members(d, roster)[i], g)
    ensures forall j :: 0 <= j < |Members(d, roster)| && j != i ==> Members(r, roster)[j] == Members(d, roster)[j]
    ensures forall other :: other != roster ==> Members(r, other) == Members(d, other)
    ensures forall g :: Get(r, g) == Get(d, g)
  {
    var slot := Members(d, roster)[i];
    var updated := match mf
      case FullName => slot.(fullName := v)
      case Detail => slot.(detail := v);
    match roster
    case Teachers => d.(teachers := d.teachers[i := updated])
    case Students => d.(students := d.students[i := updated])
  }

  // ---------------------------------------------------------------------
  // Steps.

  /** The steps the form has. */
  predicate ValidStep(step: int) {
    1 <= step <= 3
  }

  /** The fields the first page's "next" button waits for are filled. */
  predicate ActivityInfoFilled(d: Draft) {
    d.activityId != "" && d.level != "" && d.school != ""
  }

  /** The fields the second page's "next" button waits for are filled. */
  predicate ContactInfoFilled(d: Draft) {
    d.contactName != "" && d.contactPhone != "" && d.contactEmail != ""
  }

  /** A "next" button is on the page and enabled. */
  predicate CanAdvance(step: int, d: Draft) {
    || (step == 1 && ActivityInfoFilled(d))
    || (step == 2 && ContactInfoFilled(d))
  }

  /** A "back" button is on the page. The third page, back button included,
      is drawn only while the draft's activity resolves. */
  predicate CanGoBack(step: int, d: Draft, acts: seq<Activity>) {
    step == 2 || (step == 3 && Known(acts, d.activityId))
  }

  /** Pressing "next": one step forward if the button is there and enabled,
      otherwise nothing. */
  function Next(step: int, d: Draft): (r: int)
    ensures CanAdvance(step, d) <==> r == step + 1
    ensures !CanAdvance(step, d) <==> r == step
    ensures ValidStep(step) ==> ValidStep(r)
  {
    if CanAdvance(step, d) then step + 1 else step
  }

  /** Pressing "back": one step back if the button is there, otherwise
      nothing. Going back never looks at what the draft holds on the page. */
  function Back(step: int, d: Draft, acts: seq<Activity>): (r: int)
    ensures CanGoBack(step, d, acts) <==> r == step - 1
    ensures !CanGoBack(step, d, acts) <==> r == step
    ensures ValidStep(step) ==> ValidStep(r)
  {
    if CanGoBack(step, d, acts) then step - 1 else step
  }

  /** "Back" undoes an enabled "next" while the draft's activity resolves. */
  lemma BackUndoesNext(step: int, d: Draft, acts: seq<Activity>)
    requires CanAdvance(step, d)
    requires Known(acts, d.activityId)
    ensures Back(Next(step, d), d, acts) == step
  {
  }

  /** Choosing an activity clears the level, so the first page's "next"
      button is disabled right after. */
  lemma ChoosingActivityDisablesNext(d: Draft, acts: seq<Activity>, v: string)
    requires Known(acts, v)
    ensures !CanAdvance(FirstStep, HandleFormChange(d, acts, ActivityId, v))
  {
  }

  // ---------------------------------------------------------------------
  // The member lists against the chosen activity.

  /** When the draft's activity resolves, its member lists have exactly the
      lengths that activity's team composition asks for. */
  predicate FitsActivity(d: Draft, acts: seq<Activity>) {
    match Find(acts, d.activityId)
    case None => true
    case Some(a) =>
      |d.teachers| == a.teamComposition.teachers && |d.students| == a.teamComposition.students
  }

  /** No handler of the form breaks the fit between the member lists and the
      chosen activity. */
  lemma EditsPreserveFit(d: Draft, acts: seq<Activity>, f: Field, v: string,
                         roster: Roster, i: nat, mf: MemberField, w: string)
    requires FitsActivity(d, acts)
    ensures FitsActivity(HandleFormChange(d, acts, f, v), acts)
    ensures i < |Members(d, roster)| ==> FitsActivity(HandleMemberChange(d, roster, i, mf, w), acts)
  {
  }
}
