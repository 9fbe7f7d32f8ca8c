/** Worked examples of the model on small, concrete data. */
module Scenarios {
  import opened Types
  import opened Catalog
  import opened ActivityFilter
  import opened Report
  import opened RegistrationForm
  import opened Submission
  import opened Session

  const MathActivity: Activity :=
    Activity("act-1", "cat-1", "Math", ["L1"], Onsite, Composition(1, 1))

  const Acts: seq<Activity> := [MathActivity]

  function MemberTeam(id: string, activityId: string, teachers: nat, students: nat): Team {
    Team(id, activityId, "", "", "", Contact("", "", ""),
         Placeholders(teachers), Placeholders(students), Pending, 0)
  }

  /** Two teams of "act-1" with one teacher each and two and one students
      give the row "Math" with 2 teams, 2 teachers, 3 students, 5 in all;
      a third team of an unknown activity adds no row. */
  lemma ReportExample()
    ensures var r := Summarize([MemberTeam("t1", "act-1", 1, 2),
                                MemberTeam("t2", "act-1", 1, 1),
                                MemberTeam("t3", "act-9", 2, 2)], Acts);
            r == map["Math" := Summary(2, 2, 3, 5)]
  {
    var acts := Acts;
    var t1 := MemberTeam("t1", "act-1", 1, 2);
    var t2 := MemberTeam("t2", "act-1", 1, 1);
    var t3 := MemberTeam("t3", "act-9", 2, 2);
    assert Find(acts, "act-1") == Some(MathActivity);
    assert Find(acts[1..], "act-9") == None;
    assert Find(acts, "act-9") == None;
    assert [t1, t2, t3][..2] == [t1, t2];
    assert [t1, t2][..1] == [t1];
    assert [t1][..0] == [];
    assert Summarize([t1], acts) == map["Math" := Summary(1, 1, 2, 3)];
    assert Summarize([t1, t2], acts) == map["Math" := Summary(2, 2, 3, 5)];
  }

  const ArtActivity: Activity :=
    Activity("act-2", "cat-2", "Art", ["L1", "L2"], Hybrid, Composition(1, 2))

  /** Choosing category "cat-1" lists only its activity; choosing activity
      "act-1" lists only that activity; "all" on both selectors lists
      everything in load order. */
  lemma FilterExample()
    ensures Filter([MathActivity, ArtActivity], "cat-1", All) == [MathActivity]
    ensures Filter([ArtActivity, MathActivity], All, "act-1") == [MathActivity]
    ensures Filter([ArtActivity, MathActivity], All, All) == [ArtActivity, MathActivity]
  {
    assert [MathActivity, ArtActivity][..1] == [MathActivity];
    assert [ArtActivity, MathActivity][..1] == [ArtActivity];
    FilterAllIsIdentity([ArtActivity, MathActivity]);
  }

  /** A second activity that happens to be called "Math" too. */
  const MathTwin: Activity := MathActivity.(id := "act-3", teamComposition := Composition(2, 3))

  /** Two activities that share a display name share one report row: their
      teams are counted together. */
  lemma SharedNameSharesRow()
    ensures Summarize([MemberTeam("t1", "act-1", 1, 1), MemberTeam("t2", "act-3", 2, 3)],
                      [MathActivity, MathTwin])
         == map["Math" := Summary(2, 3, 4, 7)]
  {
    var twin := MathTwin;
    var acts := [MathActivity, twin];
    var t1 := MemberTeam("t1", "act-1", 1, 1);
    var t2 := MemberTeam("t2", "act-3", 2, 3);
    assert Find(acts, "act-1") == Some(MathActivity);
    assert Find(acts[1..], "act-3") == Some(twin);
    assert Find(acts, "act-3") == Some(twin);
    assert [t1, t2][..1] == [t1];
    assert [t1][..0] == [];
    assert Summarize([t1], acts) == map["Math" := Summary(1, 1, 1, 2)];
  }

  /** The first page's "next" button waits for the level. */
  lemma NextNeedsLevel()
    ensures !CanAdvance(1, Initial.(activityId := "act-1", school := "X"))
    ensures CanAdvance(1, Initial.(activityId := "act-1", level := "L1", school := "X"))
  {
  }

  /** Unfolds a run of four events into four single steps. */
  lemma RunFour(s: AppState, acts: seq<Activity>, e1: Event, e2: Event, e3: Event, e4: Event)
    ensures Run(s, acts, [e1, e2, e3, e4])
         == Apply(Apply(Apply(Apply(s, acts, e1), acts, e2), acts, e3), acts, e4)
  {
    var s1 := Apply(s, acts, e1);
    var s2 := Apply(s1, acts, e2);
    var s3 := Apply(s2, acts, e3);
    var s4 := Apply(s3, acts, e4);
    assert [e4][1..] == [];
    assert Run(s3, acts, [e4]) == s4;
    assert [e3, e4][1..] == [e4];
    assert Run(s2, acts, [e3, e4]) == s4;
    assert [e2, e3, e4][1..] == [e3, e4];
    assert Run(s1, acts, [e2, e3, e4]) == s4;
    assert [e1, e2, e3, e4][1..] == [e2, e3, e4];
  }

  /** The draft once the first page is filled for "act-1". */
  const Page1: Draft := Initial.(activityId := "act-1", level := "L1", school := "X",
                                 teachers := [Blank], students := [Blank])

  /** The draft once the second page is filled too. */
  const Page2: Draft := Page1.(contactName := "N", contactPhone := "P", contactEmail := "E")

  /** The draft once the member slots are filled too. */
  const Page3: Draft := Page2.(teachers := [TeamMember("T", "t@x")], students := [TeamMember("S", "C")])

  /** Choosing "act-1" lays out one teacher slot and one student slot, and
      the first page then lets the user on. */
  lemma FillFirstPage()
    ensures Run(Start([]), Acts, [Change(ActivityId, "act-1"), Change(Level, "L1"), Change(School, "X"), PressNext])
         == AppState([], Page1, 2, false)
  {
    assert Find(Acts, "act-1") == Some(MathActivity);
    RunFour(Start([]), Acts, Change(ActivityId, "act-1"), Change(Level, "L1"), Change(School, "X"), PressNext);
    var s1 := Apply(Start([]), Acts, Change(ActivityId, "act-1"));
    assert s1.draft == Initial.(activityId := "act-1", teachers := [Blank], students := [Blank]);
  }

  lemma FillSecondPage()
    ensures Run(AppState([], Page1, 2, false), Acts,
                [Change(ContactName, "N"), Change(ContactPhone, "P"), Change(ContactEmail, "E"), PressNext])
         == AppState([], Page2, 3, false)
  {
  }

  lemma FillMembers()
    ensures Run(AppState([], Page2, 3, false), Acts,
                [EditMember(Teachers, 0, FullName, "T"), EditMember(Teachers, 0, Detail, "t@x"),
                 EditMember(Students, 0, FullName, "S"), EditMember(Students, 0, Detail, "C")])
         == AppState([], Page3, 3, false)
  {
  }

  /** Pressing the card of the activity already chosen, from the third
      page, clears the level and blanks the member slots but keeps the step.
      The browser then holds the submit back until the required member
      inputs are filled again; once they are, a submit sends an empty level,
      which the first page's "next" guard would have refused. */
  lemma ReselectOnLastPageSendsEmptyLevel()
    ensures
      var reselected := Apply(AppState([], Page3, 3, false), Acts, Change(ActivityId, "act-1"));
      var refilled := Run(reselected, Acts,
                          [EditMember(Teachers, 0, FullName, "T"), EditMember(Teachers, 0, Detail, "t@x"),
                           EditMember(Students, 0, FullName, "S"), EditMember(Students, 0, Detail, "C")]);
      && reselected.step == 3
      && reselected.draft.level == ""
      && reselected.draft.teachers == [Blank] && reselected.draft.students == [Blank]
      && refilled.step == 3
      && refilled.draft == Page3.(level := "")
      && BeginSubmit(refilled, Acts).1.Some?
      && BeginSubmit(refilled, Acts).1.value.level == ""
  {
    assert Find(Acts, "act-1") == Some(MathActivity);
    var reselected := Apply(AppState([], Page3, 3, false), Acts, Change(ActivityId, "act-1"));
    assert reselected == AppState([], Page3.(level := "", teachers := [Blank], students := [Blank]), 3, false);
    RunFour(reselected, Acts,
            EditMember(Teachers, 0, FullName, "T"), EditMember(Teachers, 0, Detail, "t@x"),
            EditMember(Students, 0, FullName, "S"), EditMember(Students, 0, Detail, "C"));
  }

  /** Filling the form for "act-1" and submitting sends exactly one teacher
      and one student; on success the returned team is listed exactly once
      and the form starts over. */
  lemma SubmitFilledForm(t: Team)
    ensures BeginSubmit(AppState([], Page3, 3, false), Acts).1
         == Some(Payload("act-1", "", "X", "L1", Contact("N", "P", "E"),
                         [TeamMember("T", "t@x")], [TeamMember("S", "C")]))
    ensures Run(AppState([], Page3, 3, false), Acts, [PressSubmit, Reply(Success(t))]) == Start([t])
  {
    assert Find(Acts, "act-1") == Some(MathActivity);
    var s1 := Apply(AppState([], Page3, 3, false), Acts, PressSubmit);
    assert s1 == AppState([], Page3, 3, true);
    assert [Reply(Success(t))][1..] == [];
    assert Run(s1, Acts, [Reply(Success(t))]) == Start([t]);
    assert [PressSubmit, Reply(Success(t))][1..] == [Reply(Success(t))];
  }
}
