/** Whole runs of guards and log calls: what a report ends as follows from what was logged, and where. */
module ReportRunLaws {
  import opened Wrappers
  import opened ReportTypes
  import opened ReportModel
  import opened ReportProgressLaws
  import opened ReportStatusLaws
  import opened Sequences

  /** A guard is made on a report, a message is logged to it, its guard ends. */
  datatype Action = Start(report: Id) | Log(report: Id, category: ExecutionLogCategory) | Finish(report: Id)

  /** The values after the actions; `thrown` are the reports whose guards end under an exception. */
  ghost function After(t: Tree, h: nat, m: Values, actions: seq<Action>, thrown: set<Id>): (r: Values)
    requires Fits(t, h, m) && forall a | a in actions :: a.report in t
    ensures r.Keys == m.Keys
  {
    if actions == [] then m
    else
      var before := After(t, h, m, actions[..|actions| - 1], thrown);
      match actions[|actions| - 1]
      case Start(x) => GuardInit(t, h, before, x)
      case Log(x, category) => Logged(t, h, before, x, category)
      case Finish(x) => GuardFinish(t, h, before, x, x in thrown)
  }

  /**
    Nothing is logged to a report once its guard has ended. A guard ends once, on a report that runs or
    was started, after the guards of its sub reports. Otherwise actions on all reports may interleave.
   */
  ghost predicate Orderly(t: Tree, h: nat, m: Values, actions: seq<Action>)
    requires Fits(t, h, m)
    decreases |actions|
  {
    actions == []
    || var earlier, last := actions[..|actions| - 1], actions[|actions| - 1];
       && Orderly(t, h, m, earlier) && last.report in t
       && match last
          case Start(_) => true
          case Log(x, _) => Finish(x) !in earlier
          case Finish(x) =>
            && Finish(x) !in earlier
            && (m[x].status == Running || (m[x].status == Pending && Start(x) in earlier))
            && forall c | c in Subs(t, h, x) :: Finish(c) in earlier
  }

  lemma {:induction false} OrderlyIsOnReports(t: Tree, h: nat, m: Values, actions: seq<Action>)
    requires Fits(t, h, m) && Orderly(t, h, m, actions)
    ensures forall a | a in actions :: a.report in t
    decreases |actions|
  {
    if actions != [] {
      OrderlyIsOnReports(t, h, m, actions[..|actions| - 1]);
      assert actions == actions[..|actions| - 1] + [actions[|actions| - 1]];
    }
  }

  /** Under a report whose guard has ended, all guards have. */
  lemma {:induction false} AllBelowHaveEnded(t: Tree, h: nat, m: Values, actions: seq<Action>, x: Id, y: Id)
    requires Fits(t, h, m) && Orderly(t, h, m, actions) && Finish(x) in actions
    requires x in t && y in t && Above(t, h, x, y)
    ensures Finish(y) in actions
    decreases t[y].depth
  {
    if x != y {
      AllBelowHaveEnded(t, h, m, actions, x, Up(t, h, y));
      SubsHaveEnded(t, h, m, actions, Up(t, h, y), y);
    }
  }

  lemma {:induction false} SubsHaveEnded(t: Tree, h: nat, m: Values, actions: seq<Action>, x: Id, c: Id)
    requires Fits(t, h, m) && Orderly(t, h, m, actions) && Finish(x) in actions && x in t && c in Subs(t, h, x)
    ensures Finish(c) in actions
    decreases |actions|
  {
    var earlier := actions[..|actions| - 1];
    assert actions == earlier + [actions[|actions| - 1]];
    if Finish(x) in earlier {
      SubsHaveEnded(t, h, m, earlier, x, c);
    }
  }

  // ---------- what was logged ----------

  /** The running report with the flags it had and those logged to it. */
  function ToldOne(v: Vals, x: Id, actions: seq<Action>): Vals {
    v.(status := Running,
       error := v.error || Log(x, ErrorLog) in actions,
       warning := v.warning || Log(x, WarningLog) in actions)
  }

  ghost function Told(m: Values, actions: seq<Action>): Values {
    map x | x in m :: ToldOne(m[x], x, actions)
  }

  /** What holds of a report after any orderly actions. */
  ghost predicate Kept(t: Tree, h: nat, m: Values, actions: seq<Action>, thrown: set<Id>, n: Values, y: Id)
    requires Fits(t, h, m) && Fits(t, h, n) && y in t
  {
    if Finish(y) in actions then
      && n[y].status == Verdict(t, h, Told(m, actions), thrown, y)
      && (n[y].status == Finished ==> n[y].progress == 100)
    else
      && n[y].status == (if m[y].status == Pending && Start(y) in actions then Running else m[y].status)
      && n[y].error == Told(m, actions)[y].error && n[y].warning == Told(m, actions)[y].warning
  }

  /** A message told to a report does not bear on the verdict of a report it is not below. */
  lemma {:induction false} ToldElsewhere(
      t: Tree, h: nat, m: Values, earlier: seq<Action>, last: Action, thrown: set<Id>, y: Id)
    requires Fits(t, h, m) && y in t && last.report in t && (last.Log? ==> !Above(t, h, y, last.report))
    ensures Verdict(t, h, Told(m, earlier + [last]), thrown, y) == Verdict(t, h, Told(m, earlier), thrown, y)
  {
    var n, k := Told(m, earlier + [last]), Told(m, earlier);
    forall z | z in t && Above(t, h, y, z) ensures n[z].error == k[z].error && n[z].warning == k[z].warning {
    }
    assert ErrorWithin(t, h, n, thrown, y) <==> ErrorWithin(t, h, k, thrown, y);
    assert WarningWithin(t, h, n, y) <==> WarningWithin(t, h, k, y);
  }

  lemma {:induction false} RunsKeep(
      t: Tree, h: nat, m: Values, actions: seq<Action>, thrown: set<Id>, y: Id)
    requires Fits(t, h, m) && Orderly(t, h, m, actions) && y in t
    requires forall a | a in actions :: a.report in t
    ensures Kept(t, h, m, actions, thrown, After(t, h, m, actions, thrown), y)
    decreases |actions|
  {
    if actions != [] {
      var earlier, last := actions[..|actions| - 1], actions[|actions| - 1];
      assert actions == earlier + [last];
      var n := After(t, h, m, earlier, thrown);
      RunsKeep(t, h, m, earlier, thrown, y);
      if last.Log? && Above(t, h, y, last.report) && Finish(y) in earlier {
        AllBelowHaveEnded(t, h, m, earlier, y, last.report);
      }
      if Finish(y) in earlier {
        ToldElsewhere(t, h, m, earlier, last, thrown, y);
      }
      match last
      case Start(x) =>
        RunsKeep(t, h, m, earlier, thrown, x);
        StartKeeps(t, h, m, earlier, thrown, n, x, y);
      case Log(x, category) => LogKeeps(t, h, m, earlier, thrown, n, x, category, y);
      case Finish(x) =>
        RunsKeep(t, h, m, earlier, thrown, x);
        forall c | c in Subs(t, h, x) ensures Kept(t, h, m, earlier, thrown, n, c) {
          RunsKeep(t, h, m, earlier, thrown, c);
        }
        FinishKeeps(t, h, m, earlier, thrown, n, x, y);
    }
  }

  lemma {:induction false} StartKeeps(
      t: Tree, h: nat, m: Values, earlier: seq<Action>, thrown: set<Id>, n: Values, x: Id, y: Id)
    requires Fits(t, h, m) && Fits(t, h, n) && x in t && y in t
    requires Kept(t, h, m, earlier, thrown, n, x) && Kept(t, h, m, earlier, thrown, n, y)
    ensures Kept(t, h, m, earlier + [Start(x)], thrown, GuardInit(t, h, n, x), y)
  {
    ToldElsewhere(t, h, m, earlier, Start(x), thrown, y);
    SetStatusTouchesOne(t, h, n, x, Running, y);
    OtherStatusesKeepProgress(t, h, n, x, Running, y);
  }

  lemma {:induction false} LogKeeps(
      t: Tree, h: nat, m: Values, earlier: seq<Action>, thrown: set<Id>, n: Values,
      x: Id, category: ExecutionLogCategory, y: Id)
    requires Fits(t, h, m) && Fits(t, h, n) && x in t && y in t
    requires Finish(x) !in earlier && (Finish(y) in earlier ==> !Above(t, h, y, x))
    requires Kept(t, h, m, earlier, thrown, n, y)
    ensures Kept(t, h, m, earlier + [Log(x, category)], thrown, Logged(t, h, n, x, category), y)
  {
    if Finish(y) in earlier {
      ToldElsewhere(t, h, m, earlier, Log(x, category), thrown, y);
    }
  }

  lemma {:induction false} FinishKeeps(
      t: Tree, h: nat, m: Values, earlier: seq<Action>, thrown: set<Id>, n: Values, x: Id, y: Id)
    requires Fits(t, h, m) && Fits(t, h, n) && x in t && y in t
    requires Orderly(t, h, m, earlier + [Finish(x)]) && Orderly(t, h, m, earlier)
    requires Finish(x) !in earlier && (m[x].status == Running || (m[x].status == Pending && Start(x) in earlier))
    requires forall c | c in Subs(t, h, x) :: Finish(c) in earlier && Kept(t, h, m, earlier, thrown, n, c)
    requires Kept(t, h, m, earlier, thrown, n, x) && Kept(t, h, m, earlier, thrown, n, y)
    ensures Kept(t, h, m, earlier + [Finish(x)], thrown, GuardFinish(t, h, n, x, x in thrown), y)
  {
    ToldElsewhere(t, h, m, earlier, Finish(x), thrown, y);
    GuardFinishSettles(t, h, Told(m, earlier), n, x, thrown, y);
    if Finish(y) in earlier && Above(t, h, y, x) {
      AllBelowHaveEnded(t, h, m, earlier, y, x);
    }
  }

  /**
    In any orderly run, a report whose guard has ended ends as Error exactly when it or one below it was
    logged an error, had logged one before, or was left by an exception; else as Warning exactly when a
    warning was logged there; else as Finished, with full progress. Until then its flags say what was
    logged to it, and only being started changes its status: other messages change nothing.
   */
  lemma {:induction false} LogsDecideTheVerdict(
      t: Tree, h: nat, m: Values, actions: seq<Action>, thrown: set<Id>, y: Id)
    requires Fits(t, h, m) && Orderly(t, h, m, actions) && y in t
    requires forall a | a in actions :: a.report in t
    ensures var after := After(t, h, m, actions, thrown)[y];
            if Finish(y) in actions then
              && after.status ==
                 (if exists z | z in t ::
                       Above(t, h, y, z) && (m[z].error || z in thrown || Log(z, ErrorLog) in actions) then Error
                  else if exists z | z in t ::
                       Above(t, h, y, z) && (m[z].warning || Log(z, WarningLog) in actions) then Warning
                  else Finished)
              && (after.status == Finished ==> after.progress == 100)
            else
              && after.status == (if m[y].status == Pending && Start(y) in actions then Running else m[y].status)
              && (after.error <==> m[y].error || Log(y, ErrorLog) in actions)
              && (after.warning <==> m[y].warning || Log(y, WarningLog) in actions)
  {
    RunsKeep(t, h, m, actions, thrown, y);
    var told := Told(m, actions);
    assert ErrorWithin(t, h, told, thrown, y) <==>
           exists z | z in t :: Above(t, h, y, z) && (m[z].error || z in thrown || Log(z, ErrorLog) in actions);
    assert WarningWithin(t, h, told, y) <==>
           exists z | z in t :: Above(t, h, y, z) && (m[z].warning || Log(z, WarningLog) in actions);
  }

  /** A message is heard once, by the report and what lies above it; it changes no progress. */
  lemma {:induction false} LogsAreHeard(t: Tree, h: nat, m: Values, x: Id, category: ExecutionLogCategory, y: Id)
    requires Fits(t, h, m) && x in t && y in t
    ensures var after := Logged(t, h, m, x, category)[y];
            && after.seen == m[y].seen + Heard(t, h, y, [x], MessageAdded)
            && after.progress == m[y].progress && after.status == m[y].status
  {
    assert Heard(t, h, y, [], MessageAdded) == [];
  }
}
