/** The summary report: teams folded, in list order, into counters keyed by
    the *name* of the activity each team resolves to. Teams whose activity
    does not resolve are skipped. Two activities that share a name share
    one entry. */
module Report {
  import opened Types
  import opened Catalog

  /** The four counters of one report row. */
  datatype Summary = Summary(teams: nat, teachers: nat, students: nat, total: nat)

  /** The counters a row starts from when its name is first seen. */
  const Zero: Summary := Summary(0, 0, 0, 0)

  /** A row whose total is the sum of its teacher and student counts. */
  predicate Balanced(s: Summary) {
    s.total == s.teachers + s.students
  }

  /** The name a team is reported under, if its activity resolves. */
  function NameOf(t: Team, acts: seq<Activity>): Option<string> {
    match Find(acts, t.activityId)
    case None => None
    case Some(a) => Some(a.name)
  }

  /** One step of the fold: count `t` under its activity's name. */
  function AddTeam(m: map<string, Summary>, t: Team, acts: seq<Activity>): (r: map<string, Summary>)
    ensures !Known(acts, t.activityId) ==> r == m
    ensures Known(acts, t.activityId) ==>
      var n := Find(acts, t.activityId).value.name;
      var before := if n in m then m[n] else Zero;
      && r.Keys == m.Keys + {n}
      && r[n].teams == before.teams + 1
      && r[n].teachers == before.teachers + |t.teachers|
      && r[n].students == before.students + |t.students|
      && r[n].total == before.total + |t.teachers| + |t.students|
      && forall k :: k in m && k != n ==> r[k] == m[k]
  {
    match Find(acts, t.activityId)
    case None => m
    case Some(a) =>
      var before := if a.name in m then m[a.name] else Zero;
      m[a.name := Summary(before.teams + 1,
                          before.teachers + |t.teachers|,
                          before.students + |t.students|,
                          before.total + |t.teachers| + |t.students|)]
  }

  /** The report over `teams`, folded from the first team to the last. */
  function Summarize(teams: seq<Team>, acts: seq<Activity>): (r: map<string, Summary>)
    ensures forall n :: n in r ==> Balanced(r[n])
  {
    if |teams| == 0 then map[]
    else AddTeam(Summarize(teams[..|teams| - 1], acts), teams[|teams| - 1], acts)
  }

  // ---------------------------------------------------------------------
  // An independent, per-name account of what the report should hold.

  function TeamCount(t: Team): nat { 1 }
  function TeacherCount(t: Team): nat { |t.teachers| }
  function StudentCount(t: Team): nat { |t.students| }
  function MemberCount(t: Team): nat { |t.teachers| + |t.students| }

  /** The sum of `g` over the teams reported under name `n`. */
  function SumNamed(teams: seq<Team>, acts: seq<Activity>, n: string, g: Team -> nat): nat {
    if |teams| == 0 then 0
    else
      var t := teams[|teams| - 1];
      SumNamed(teams[..|teams| - 1], acts, n, g) + (if NameOf(t, acts) == Some(n) then g(t) else 0)
  }

  /** The sum of `g` over the teams whose activity resolves at all. */
  function SumKnown(teams: seq<Team>, acts: seq<Activity>, g: Team -> nat): nat {
    if |teams| == 0 then 0
    else
      var t := teams[|teams| - 1];
      SumKnown(teams[..|teams| - 1], acts, g) + (if Known(acts, t.activityId) then g(t) else 0)
  }

  /** Under a name no team is reported under, every sum is zero. */
  lemma {:induction false} NoTeamsNothingNamed(teams: seq<Team>, acts: seq<Activity>, n: string, g: Team -> nat)
    requires SumNamed(teams, acts, n, TeamCount) == 0
    ensures SumNamed(teams, acts, n, g) == 0
  {
    if |teams| > 0 {
      NoTeamsNothingNamed(teams[..|teams| - 1], acts, n, g);
    }
  }

  /** A name has a row exactly when some team is reported under it, and the
      row holds that name's team count, teacher count, student count and
      their sum. */
  lemma {:induction false} SummarizeByName(teams: seq<Team>, acts: seq<Activity>, n: string)
    ensures n in Summarize(teams, acts) <==> SumNamed(teams, acts, n, TeamCount) > 0
    ensures n in Summarize(teams, acts) ==>
      var teachers := SumNamed(teams, acts, n, TeacherCount);
      var students := SumNamed(teams, acts, n, StudentCount);
      Summarize(teams, acts)[n]
        == Summary(SumNamed(teams, acts, n, TeamCount), teachers, students, teachers + students)
  {
    if |teams| > 0 {
      var init := teams[..|teams| - 1];
      var t := teams[|teams| - 1];
      SummarizeByName(init, acts, n);
      assert teams[..|teams| - 1] == init;
      var m := Summarize(init, acts);
      if Known(acts, t.activityId) && Find(acts, t.activityId).value.name == n {
        var before := if n in m then m[n] else Zero;
        if n !in m {
          NoTeamsNothingNamed(init, acts, n, TeacherCount);
          NoTeamsNothingNamed(init, acts, n, StudentCount);
        }
        assert Summarize(teams, acts)[n]
            == Summary(before.teams + 1, before.teachers + |t.teachers|,
                       before.students + |t.students|, before.total + |t.teachers| + |t.students|);
      }
    }
  }

  /** A team whose activity does not resolve can be dropped from anywhere in
      the list without changing the report. */
  lemma {:induction false} UnknownTeamIgnored(before: seq<Team>, t: Team, after: seq<Team>, acts: seq<Activity>)
    requires !Known(acts, t.activityId)
    ensures Summarize(before + [t] + after, acts) == Summarize(before + after, acts)
  {
    if |after| == 0 {
      assert (before + [t] + after)[..|before|] == before;
      assert before + after == before;
    } else {
      var init := after[..|after| - 1];
      var u := after[|after| - 1];
      UnknownTeamIgnored(before, t, init, acts);
      assert (before + [t] + after)[..|before + [t] + after| - 1] == before + [t] + init;
      assert (before + after)[..|before + after| - 1] == before + init;
    }
  }

  // ---------------------------------------------------------------------
  // Summing a counter over the rows of the report.

  function TeamsOf(s: Summary): nat { s.teams }
  function TotalOf(s: Summary): nat { s.total }

  /** The sum of `f` over the rows of `m` named in `keys`. */
  ghost function SumOver(m: map<string, Summary>, keys: set<string>, f: Summary -> nat): nat
    requires keys <= m.Keys
    decreases keys
  {
    if keys == {} then 0
    else
      var k :| k in keys;
      f(m[k]) + SumOver(m, keys - {k}, f)
  }

  /** Any row can be taken out of the sum first. */
  lemma {:induction false} SumOverRemove(m: map<string, Summary>, keys: set<string>, f: Summary -> nat, k: string)
    requires keys <= m.Keys && k in keys
    ensures SumOver(m, keys, f) == f(m[k]) + SumOver(m, keys - {k}, f)
    decreases keys
  {
    assert exists j :: j in keys && SumOver(m, keys, f) == f(m[j]) + SumOver(m, keys - {j}, f);
    var j :| j in keys && SumOver(m, keys, f) == f(m[j]) + SumOver(m, keys - {j}, f);
    if j != k {
      SumOverRemove(m, keys - {j}, f, k);
      SumOverRemove(m, keys - {k}, f, j);
      assert keys - {j} - {k} == keys - {k} - {j};
    }
  }

  /** The sum reads only the rows it sums. */
  lemma {:induction false} SumOverFrame(m: map<string, Summary>, m': map<string, Summary>, keys: set<string>, f: Summary -> nat)
    requires keys <= m.Keys && keys <= m'.Keys
    requires forall k :: k in keys ==> m[k] == m'[k]
    ensures SumOver(m, keys, f) == SumOver(m', keys, f)
    decreases keys
  {
    if keys != {} {
      var k :| k in keys;
      SumOverRemove(m, keys, f, k);
      SumOverRemove(m', keys, f, k);
      SumOverFrame(m, m', keys - {k}, f);
    }
  }

  /** Overwriting (or adding) one row changes the sum by the difference. */
  lemma SumOverUpdate(m: map<string, Summary>, n: string, v: Summary, f: Summary -> nat)
    ensures SumOver(m[n := v], m.Keys + {n}, f)
         == SumOver(m, m.Keys, f) - (if n in m then f(m[n]) else 0) + f(v)
  {
    var m' := m[n := v];
    SumOverRemove(m', m.Keys + {n}, f, n);
    assert m.Keys + {n} - {n} == m.Keys - {n};
    SumOverFrame(m, m', m.Keys - {n}, f);
    if n in m {
      SumOverRemove(m, m.Keys, f, n);
    } else {
      assert m.Keys - {n} == m.Keys;
    }
  }

  /** The team counts of all rows add up to the number of teams whose
      activity resolves. */
  lemma {:induction false} ReportCountsKnownTeams(teams: seq<Team>, acts: seq<Activity>)
    ensures SumOver(Summarize(teams, acts), Summarize(teams, acts).Keys, TeamsOf)
         == SumKnown(teams, acts, TeamCount)
  {
    if |teams| > 0 {
      var init := teams[..|teams| - 1];
      var t := teams[|teams| - 1];
      ReportCountsKnownTeams(init, acts);
      var m := Summarize(init, acts);
      if Known(acts, t.activityId) {
        var n := Find(acts, t.activityId).value.name;
        SumOverUpdate(m, n, AddTeam(m, t, acts)[n], TeamsOf);
        assert AddTeam(m, t, acts) == m[n := AddTeam(m, t, acts)[n]];
      }
    }
  }

  /** The totals of all rows add up to the number of members (teachers and
      students) of the teams whose activity resolves. */
  lemma {:induction false} ReportTotalsKnownMembers(teams: seq<Team>, acts: seq<Activity>)
    ensures SumOver(Summarize(teams, acts), Summarize(teams, acts).Keys, TotalOf)
         == SumKnown(teams, acts, MemberCount)
  {
    if |teams| > 0 {
      var init := teams[..|teams| - 1];
      var t := teams[|teams| - 1];
      ReportTotalsKnownMembers(init, acts);
      var m := Summarize(init, acts);
      if Known(acts, t.activityId) {
        var n := Find(acts, t.activityId).value.name;
        SumOverUpdate(m, n, AddTeam(m, t, acts)[n], TotalOf);
        assert AddTeam(m, t, acts) == m[n := AddTeam(m, t, acts)[n]];
      }
    }
  }
}
