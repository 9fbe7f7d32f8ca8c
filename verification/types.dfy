/** The entities of the registration front end: categories, activities and
    the teams registered for them. Identifiers and free text are strings;
    member counts are unbounded naturals. */
module Types {

  /** The conventional optional value, used for first-match lookups. */
  datatype Option<+T> = None | Some(value: T)

  /** How an activity is held. */
  datatype CompetitionMode = Onsite | Online | Hybrid

  /** The approval state the remote store assigns to a team. */
  datatype TeamStatus = Pending | Approved | Rejected

  /** A teacher or a student. `detail` is an e-mail address for a teacher
      and a class name for a student; the type does not tell them apart. */
  datatype TeamMember = TeamMember(fullName: string, detail: string)

  /** The contact person grouped inside a team (and inside a submission). */
  datatype Contact = Contact(name: string, phone: string, email: string)

  /** How many teacher and student slots a team for an activity must fill. */
  datatype Composition = Composition(teachers: nat, students: nat)

  datatype Activity = Activity(
    id: string,
    categoryId: string,
    name: string,
    levels: seq<string>,
    mode: CompetitionMode,
    teamComposition: Composition
  )

  datatype Category = Category(id: string, name: string)

  /** A team as the remote store returns it; `id`, `status` and `order` are
      assigned by the store, never by the front end. */
  datatype Team = Team(
    id: string,
    activityId: string,
    teamName: string,
    school: string,
    level: string,
    contact: Contact,
    teachers: seq<TeamMember>,
    students: seq<TeamMember>,
    status: TeamStatus,
    order: int
  )
}
