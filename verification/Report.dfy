/**
  The execution report itself: a handle on shared data whose methods update the tree in place.
  Each method is proved to do to the values of the whole tree what `ReportModel` says. The ghost
  parameters are the set of all reports of the tree and a bound on its height.
 */
module Report {
  import opened Wrappers
  import opened ReportTypes
  import opened ReportModel

  ghost function TreeOf(all: set<ExecutionReportData>): Tree
    reads all
  {
    map x | x in all :: Links(x.parent, x.subReports, x.weight, x.depth)
  }

  ghost function ValuesOf(all: set<ExecutionReportData>): Values
    reads all
  {
    map x | x in all :: Vals(x.status, x.progress, x.warningLogged, x.errorLogged, x.seen)
  }

  datatype ExecutionReport = ExecutionReport(data: ExecutionReportData) {

    /** The handle is on a report of a well-built tree. */
    ghost predicate In(all: set<ExecutionReportData>, h: nat)
      reads all
    {
      data in all && Forest(TreeOf(all), h)
    }

    // ---------- events ----------

    /** Tells this report and all that lie above it. */
    method Notify(ghost all: set<ExecutionReportData>, ghost h: nat, kind: ExecutionEventType)
      requires In(all, h)
      modifies all`seen
      ensures TreeOf(all) == old(TreeOf(all))
      ensures ValuesOf(all) == ReportModel.Notify(TreeOf(all), h, old(ValuesOf(all)), data, kind)
    {
      NotifyAlong(TreeOf(all), all, h, kind);
    }

    /** The walk up the parents, which only needs the links above this report to be those of a well-built tree. */
    method NotifyAlong(ghost t: Tree, ghost all: set<ExecutionReportData>, ghost h: nat, kind: ExecutionEventType)
      requires data in all && t.Keys == all && Forest(t, h)
      requires forall y | y in all && Above(t, h, y, data) :: y.parent == t[y].parent
      modifies all`seen
      ensures TreeOf(all) == old(TreeOf(all))
      ensures ValuesOf(all) == ReportModel.Notify(t, h, old(ValuesOf(all)), data, kind)
    {
      ghost var m, links := ValuesOf(all), TreeOf(all);
      var event := ExecutionEvent(data, kind);
      NotifyUpIsNotify(t, h, m, data, kind);
      Observe(data, all, event);
      var sharedParent := data.parent;
      assert Linked(t, h, data);
      while sharedParent.Some?
        invariant TreeOf(all) == links
        invariant sharedParent.Some? ==> sharedParent.value in all && Above(t, h, sharedParent.value, data)
        invariant NotifyUp(t, h, ValuesOf(all), sharedParent, event) == NotifyUp(t, h, m, Some(data), event)
        decreases if sharedParent.Some? then t[sharedParent.value].depth + 1 else 0
      {
        ghost var p := sharedParent.value;
        assert Linked(t, h, p);
        if t[p].parent.Some? {
          AboveIsTransitive(t, h, Up(t, h, p), p, data);
        }
        Observe(sharedParent.value, all, event);
        sharedParent := sharedParent.value.parent;
      }
    }

    // ---------- progress ----------

    method SetProgress(ghost all: set<ExecutionReportData>, ghost h: nat, p: Progress)
      requires In(all, h)
      modifies all`progress, all`seen
      ensures TreeOf(all) == old(TreeOf(all))
      ensures ValuesOf(all) == ReportModel.SetProgress(TreeOf(all), h, old(ValuesOf(all)), data, p)
      decreases data.depth, 3
    {
      if data.progress != p {
        StoreProgress(data, all, p);
        Notify(all, h, ProgressChanged);
        TryPropagateProgressToParent(all, h);
      }
    }

    /** The overload taking an int, which loses all but its low byte before the clamp. */
    method SetProgressFromInt(ghost all: set<ExecutionReportData>, ghost h: nat, value: int)
      requires In(all, h)
      modifies all`progress, all`seen
      ensures TreeOf(all) == old(TreeOf(all))
      ensures ValuesOf(all) == ReportModel.SetProgress(TreeOf(all), h, old(ValuesOf(all)), data, ProgressFromInt(value))
    {
      SetProgress(all, h, ProgressFromInt(value));
    }

    /** Compare and set; the weak exchange may also fail spuriously. */
    method TrySetProgress(
        ghost all: set<ExecutionReportData>, ghost h: nat, oldValue: Progress, newValue: Progress, spurious: bool)
        returns (ok: bool)
      requires In(all, h)
      modifies all`progress, all`seen
      ensures ok <==> old(data.progress) == oldValue && !spurious
      ensures TreeOf(all) == old(TreeOf(all))
      ensures ValuesOf(all) ==
              if ok then ReportModel.ChangeProgress(TreeOf(all), h, old(ValuesOf(all)), data, newValue)
              else old(ValuesOf(all))
      decreases data.depth, 1
    {
      ok := data.progress == oldValue && !spurious;
      if ok {
        StoreProgress(data, all, newValue);
        Notify(all, h, ProgressChanged);
        TryPropagateProgressToParent(all, h);
      }
    }

    method TryPropagateProgressToParent(ghost all: set<ExecutionReportData>, ghost h: nat)
      requires In(all, h)
      modifies all`progress, all`seen
      ensures TreeOf(all) == old(TreeOf(all))
      ensures ValuesOf(all) == ReportModel.PropagateProgress(TreeOf(all), h, old(ValuesOf(all)), data)
      decreases data.depth, 0
    {
      assert Linked(TreeOf(all), h, data);
      if data.weight != 0 {
        match data.parent
        case None =>
        case Some(sharedParent) => ExecutionReport(sharedParent).UpdateProgressFromSubReports(all, h);
      }
    }

    /** The rounded weighted mean of the active sub reports, if there is one. */
    method ProgressFromSubReports(ghost all: set<ExecutionReportData>, ghost h: nat) returns (r: Option<Progress>)
      requires In(all, h)
      ensures r.Some? <==> HasActive(TreeOf(all), h, data)
      ensures r.Some? ==> r.value == Mean(TreeOf(all), h, ValuesOf(all), data)
    {
      ghost var t, m := TreeOf(all), ValuesOf(all);
      assert Linked(t, h, data);
      var subs := data.subReports;
      var totalWeights: nat, totalProgress: nat := 0, 0;
      for i := 0 to |subs|
        invariant totalWeights + TotalWeight(t, subs[i..]) == TotalWeight(t, subs)
        invariant totalProgress + TotalProgress(t, m, subs[i..]) == TotalProgress(t, m, subs)
      {
        var report := subs[i];
        assert subs[i..][0] == report && subs[i..][1..] == subs[i + 1..];
        if report.weight != 0 {
          totalProgress := totalProgress + report.progress * report.weight;
          totalWeights := totalWeights + report.weight;
        }
      }
      assert subs[|subs|..] == [];
      r := if totalWeights != 0 then Some(ProgressFromInt(RoundedRatio(totalProgress, totalWeights))) else None;
    }

    method UpdateProgressFromSubReports(ghost all: set<ExecutionReportData>, ghost h: nat)
      requires In(all, h)
      modifies all`progress, all`seen
      ensures TreeOf(all) == old(TreeOf(all))
      ensures ValuesOf(all) == ReportModel.UpdateProgress(TreeOf(all), h, old(ValuesOf(all)), data)
      decreases data.depth, 2
    {
      var spuriousFailures: nat := *;
      while true
        invariant TreeOf(all) == old(TreeOf(all)) && ValuesOf(all) == old(ValuesOf(all))
        invariant data.depth == old(data.depth)
        decreases spuriousFailures
      {
        var current := data.progress;
        var fromSubs := ProgressFromSubReports(all, h);
        if fromSubs.None? {
          break;
        }
        var ok := TrySetProgress(all, h, current, fromSubs.value, spuriousFailures > 0);
        if ok {
          break;
        }
        spuriousFailures := spuriousFailures - 1;
      }
    }

    // ---------- status ----------

    method SetStatus(ghost all: set<ExecutionReportData>, ghost h: nat, s: ExecutionStatus)
      requires In(all, h)
      modifies all`status, all`warningLogged, all`errorLogged, all`progress, all`seen
      ensures TreeOf(all) == old(TreeOf(all))
      ensures ValuesOf(all) == ReportModel.SetStatus(TreeOf(all), h, old(ValuesOf(all)), data, s)
      decreases h - data.depth, 1
    {
      if data.status != s {
        StoreStatus(data, all, s);
        Notify(all, h, StatusChanged);
        if data.status == Finished {
          SetProgress(all, h, 100);
        }
        if s == Cancelled {
          CancelSubReports(all, h);
        }
      }
    }

    method CancelSubReports(ghost all: set<ExecutionReportData>, ghost h: nat)
      requires In(all, h)
      modifies all`status, all`warningLogged, all`errorLogged, all`progress, all`seen
      ensures TreeOf(all) == old(TreeOf(all))
      ensures ValuesOf(all) == CancelSubs(TreeOf(all), h, old(ValuesOf(all)), data, Subs(TreeOf(all), h, data))
      decreases h - data.depth, 0
    {
      ghost var t, m := TreeOf(all), ValuesOf(all);
      var subs := data.subReports;
      assert subs == Subs(t, h, data);
      for i := 0 to |subs|
        invariant TreeOf(all) == t
        invariant CancelSubs(t, h, ValuesOf(all), data, subs[i..]) == CancelSubs(t, h, m, data, subs)
      {
        assert subs[i..][0] == subs[i] && subs[i..][1..] == subs[i + 1..];
        assert t[subs[i]].depth == t[data].depth + 1 <= h;
        if !IsFinal(subs[i].status) {
          ExecutionReport(subs[i]).SetStatus(all, h, Cancelled);
        }
      }
      assert subs[|subs|..] == [];
    }

    method IsBusy(ghost all: set<ExecutionReportData>, ghost h: nat) returns (busy: bool)
      requires In(all, h)
      ensures busy <==> Busy(TreeOf(all), h, ValuesOf(all), data)
      decreases h - data.depth, 1
    {
      busy := !IsFinal(data.status);
      if !busy {
        busy := HasBusySubReport(all, h);
      }
    }

    method HasBusySubReport(ghost all: set<ExecutionReportData>, ghost h: nat) returns (busy: bool)
      requires In(all, h)
      ensures busy <==> exists c | c in data.subReports :: c in all && Busy(TreeOf(all), h, ValuesOf(all), c)
      decreases h - data.depth, 0
    {
      var subs := data.subReports;
      assert subs == Subs(TreeOf(all), h, data);
      for i := 0 to |subs|
        invariant forall k | 0 <= k < i :: !Busy(TreeOf(all), h, ValuesOf(all), subs[k])
      {
        assert subs[i] in subs && TreeOf(all)[subs[i]].depth == TreeOf(all)[data].depth + 1 <= h;
        var b := ExecutionReport(subs[i]).IsBusy(all, h);
        if b {
          return true;
        }
      }
      return false;
    }

    // ---------- logging ----------

    method Log(ghost all: set<ExecutionReportData>, ghost h: nat, category: ExecutionLogCategory)
      requires In(all, h)
      modifies all`warningLogged, all`errorLogged, all`seen
      ensures TreeOf(all) == old(TreeOf(all))
      ensures ValuesOf(all) == Logged(TreeOf(all), h, old(ValuesOf(all)), data, category)
    {
      ghost var m := ValuesOf(all);
      match category {
        case WarningLog => RaiseWarning(data, all);
        case ErrorLog => RaiseError(data, all);
        case _ =>
      }
      assert ValuesOf(all) == m[data := WithLog(m[data], category)];
      Notify(all, h, MessageAdded);
    }

    // ---------- building the tree ----------

    method LinkSubReport(ghost all: set<ExecutionReportData>, ghost h: nat, sub: ExecutionReport)
      requires In(all, h) && sub.data in all
      modifies sub.data`parent, data`subReports, all`depth
      ensures TreeOf(all) == Added(old(TreeOf(all)), h, data, sub.data) && ValuesOf(all) == old(ValuesOf(all))
    {
      ghost var t, m := TreeOf(all), ValuesOf(all);
      sub.data.parent := Some(data);
      data.subReports := data.subReports + [sub.data];
      forall y | y in all && Above(t, h, sub.data, y) {
        y.depth := ShiftedDepth(t, h, data, sub.data, y);
      }
      assert ValuesOf(all) == m;
      assert TreeOf(all) == Added(t, h, data, sub.data);
    }

    /**
      Adds a report, with all that is below it, to the sub reports of this one. It must not be above
      this one, or the walk up the parents would never end. If it had no parent, the tree stays well
      built; if it had one, that one goes on listing it.
     */
    method AddSubReport(ghost all: set<ExecutionReportData>, ghost h: nat, sub: ExecutionReport)
      requires In(all, h) && sub.data in all && !Above(TreeOf(all), h, sub.data, data)
      modifies sub.data`parent, data`subReports, all`depth, all`seen
      ensures Relinked(old(TreeOf(all)), TreeOf(all), data, sub.data)
      ensures ValuesOf(all) == ReportModel.Notify(old(TreeOf(all)), h, old(ValuesOf(all)), data, SubReportAdded)
      ensures Forest(TreeOf(all), 2 * h + 1) <==> old(sub.data.parent) == None
    {
      ghost var t := TreeOf(all);
      LinkSubReport(all, h, sub);
      NotifyAlong(t, all, h, SubReportAdded);
      if t[sub.data].parent.None? {
        AddedIsForest(t, h, data, sub.data);
      } else if Forest(TreeOf(all), 2 * h + 1) {
        AddedIsForestOnlyIf(t, h, data, sub.data, TreeOf(all), 2 * h + 1);
      }
    }
  }

  // ---------- the status guard ----------

  /** What the guard does when it is made. */
  method GuardInit(report: ExecutionReport, ghost all: set<ExecutionReportData>, ghost h: nat)
    requires report.In(all, h)
    modifies all`status, all`warningLogged, all`errorLogged, all`progress, all`seen
    ensures TreeOf(all) == old(TreeOf(all))
    ensures ValuesOf(all) == ReportModel.GuardInit(TreeOf(all), h, old(ValuesOf(all)), report.data)
  {
    if report.data.status == Pending {
      report.SetStatus(all, h, Running);
    }
  }

  /** What the guard does when it goes out of scope; `thrown` tells whether an exception is unwinding the stack. */
  method GuardFinish(report: ExecutionReport, ghost all: set<ExecutionReportData>, ghost h: nat, thrown: bool)
    requires report.In(all, h)
    modifies all`status, all`warningLogged, all`errorLogged, all`progress, all`seen
    ensures TreeOf(all) == old(TreeOf(all))
    ensures ValuesOf(all) == ReportModel.GuardFinish(TreeOf(all), h, old(ValuesOf(all)), report.data, thrown)
  {
    var hasWarning, hasError := FinishSubReports(report, all, h);
    if report.data.status == Running || report.data.status == CancelRequest {
      if hasError || report.data.errorLogged || thrown {
        report.SetStatus(all, h, Error);
      } else if hasWarning || report.data.warningLogged {
        report.SetStatus(all, h, Warning);
      } else {
        report.SetStatus(all, h, Finished);
      }
    }
  }

  method FinishSubReports(report: ExecutionReport, ghost all: set<ExecutionReportData>, ghost h: nat)
      returns (hasWarning: bool, hasError: bool)
    requires report.In(all, h)
    modifies all`status, all`warningLogged, all`errorLogged, all`progress, all`seen
    ensures TreeOf(all) == old(TreeOf(all))
    ensures SubVerdict(ValuesOf(all), hasWarning, hasError)
         == FinishSubs(TreeOf(all), h, SubVerdict(old(ValuesOf(all)), false, false), Subs(TreeOf(all), h, report.data))
  {
    ghost var t, m := TreeOf(all), ValuesOf(all);
    hasWarning, hasError := false, false;
    var subs := report.data.subReports;
    assert subs == Subs(t, h, report.data);
    for i := 0 to |subs|
      invariant TreeOf(all) == t
      invariant FinishSubs(t, h, SubVerdict(ValuesOf(all), hasWarning, hasError), subs[i..])
             == FinishSubs(t, h, SubVerdict(m, false, false), subs)
    {
      assert subs[i..][0] == subs[i] && subs[i..][1..] == subs[i + 1..];
      var warning, error := FinishSubReport(ExecutionReport(subs[i]), all, h, hasWarning, hasError);
      hasWarning, hasError := warning, error;
    }
    assert subs[|subs|..] == [];
  }

  method FinishSubReport(
      sub: ExecutionReport, ghost all: set<ExecutionReportData>, ghost h: nat, warning: bool, error: bool)
      returns (hasWarning: bool, hasError: bool)
    requires sub.In(all, h)
    modifies all`status, all`warningLogged, all`errorLogged, all`progress, all`seen
    ensures TreeOf(all) == old(TreeOf(all))
    ensures SubVerdict(ValuesOf(all), hasWarning, hasError)
         == FinishSub(TreeOf(all), h, SubVerdict(old(ValuesOf(all)), warning, error), sub.data)
  {
    hasWarning, hasError := warning, error;
    match sub.data.status {
      case Pending =>
        sub.SetStatus(all, h, Cancelled);
      case Running =>
        if sub.data.errorLogged {
          sub.SetStatus(all, h, Error);
          hasError := true;
        } else if sub.data.warningLogged {
          sub.SetStatus(all, h, Warning);
          hasWarning := true;
        }
      case Warning =>
        hasWarning := true;
      case Error =>
        hasError := true;
      case _ =>
    }
  }

  /** Writes a status and raises the flag that goes with it. */
  method StoreStatus(x: ExecutionReportData, ghost all: set<ExecutionReportData>, s: ExecutionStatus)
    requires x in all
    modifies x`status, x`warningLogged, x`errorLogged
    ensures TreeOf(all) == old(TreeOf(all))
    ensures ValuesOf(all) == old(ValuesOf(all))[x := WithStatus(old(ValuesOf(all)[x]), s)]
  {
    ghost var m := ValuesOf(all);
    UpdatedTwice(m, x, m[x].(status := s), WithStatus(m[x], s));
    WriteStatus(x, all, s);
    if s == Error {
      RaiseError(x, all);
    } else if s == Warning {
      RaiseWarning(x, all);
    }
  }

  lemma {:induction false} UpdatedTwice(m: Values, x: Id, v: Vals, w: Vals)
    ensures m[x := v][x := w] == m[x := w]
  {
  }

  method WriteStatus(x: ExecutionReportData, ghost all: set<ExecutionReportData>, s: ExecutionStatus)
    requires x in all
    modifies x`status
    ensures TreeOf(all) == old(TreeOf(all))
    ensures ValuesOf(all) == old(ValuesOf(all))[x := old(ValuesOf(all)[x]).(status := s)]
  {
    x.status := s;
  }

  method RaiseError(x: ExecutionReportData, ghost all: set<ExecutionReportData>)
    requires x in all
    modifies x`errorLogged
    ensures TreeOf(all) == old(TreeOf(all))
    ensures ValuesOf(all) == old(ValuesOf(all))[x := old(ValuesOf(all)[x]).(error := true)]
  {
    x.errorLogged := true;
  }

  method RaiseWarning(x: ExecutionReportData, ghost all: set<ExecutionReportData>)
    requires x in all
    modifies x`warningLogged
    ensures TreeOf(all) == old(TreeOf(all))
    ensures ValuesOf(all) == old(ValuesOf(all))[x := old(ValuesOf(all)[x]).(warning := true)]
  {
    x.warningLogged := true;
  }

  method StoreProgress(x: ExecutionReportData, ghost all: set<ExecutionReportData>, p: Progress)
    requires x in all
    modifies x`progress
    ensures TreeOf(all) == old(TreeOf(all))
    ensures ValuesOf(all) == old(ValuesOf(all))[x := old(ValuesOf(all)[x]).(progress := p)]
  {
    x.progress := p;
  }

  /** Hands an event to the observers of a report. */
  method Observe(x: ExecutionReportData, ghost all: set<ExecutionReportData>, event: ExecutionEvent)
    requires x in all
    modifies x`seen
    ensures TreeOf(all) == old(TreeOf(all))
    ensures ValuesOf(all) == old(ValuesOf(all))[x := old(ValuesOf(all)[x]).(seen := old(x.seen) + [event])]
  {
    x.seen := x.seen + [event];
  }

  /** The events as the walk up the parents delivers them. */
  ghost function NotifyUp(t: Tree, h: nat, m: Values, x: Option<Id>, event: ExecutionEvent): (r: Values)
    requires Fits(t, h, m) && (x.Some? ==> x.value in t)
    ensures r.Keys == m.Keys
    decreases if x.Some? then t[x.value].depth + 1 else 0
  {
    if x.None? then m
    else
      assert Linked(t, h, x.value);
      NotifyUp(t, h, m[x.value := m[x.value].(seen := m[x.value].seen + [event])], t[x.value].parent, event)
  }

  lemma {:induction false} NotifyUpAt(t: Tree, h: nat, m: Values, x: Id, event: ExecutionEvent, y: Id)
    requires Fits(t, h, m) && x in t && y in t
    ensures NotifyUp(t, h, m, Some(x), event)[y] ==
            if Above(t, h, y, x) then m[y].(seen := m[y].seen + [event]) else m[y]
    decreases t[x].depth
  {
    if t[x].parent.Some? {
      NotifyUpAt(t, h, m[x := m[x].(seen := m[x].seen + [event])], Up(t, h, x), event, y);
      if y == x && Above(t, h, x, Up(t, h, x)) {
        AboveIsHigher(t, h, x, Up(t, h, x));
      }
    }
  }

  lemma {:induction false} NotifyUpIsNotify(t: Tree, h: nat, m: Values, x: Id, kind: ExecutionEventType)
    requires Fits(t, h, m) && x in t
    ensures NotifyUp(t, h, m, Some(x), ExecutionEvent(x, kind)) == ReportModel.Notify(t, h, m, x, kind)
  {
    forall y | y in t
      ensures NotifyUp(t, h, m, Some(x), ExecutionEvent(x, kind))[y] == ReportModel.Notify(t, h, m, x, kind)[y]
    {
      NotifyUpAt(t, h, m, x, ExecutionEvent(x, kind), y);
    }
  }
}
