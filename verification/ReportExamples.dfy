/** Concrete reports for which what the names suggest fails. */
module ReportExamples {
  import opened Wrappers
  import opened ReportTypes
  import opened ReportModel
  import opened ReportStatusLaws
  import opened Report

  /** Two new reports, one the sub report of the other. */
  method NewPair() returns (p: ExecutionReportData, c: ExecutionReportData)
    ensures fresh(p) && fresh(c) && p != c && Forest(TreeOf({p, c}), 1) && p.subReports == [c]
    ensures forall x | x in {p, c} :: x.status == Pending && !x.errorLogged && !x.warningLogged
  {
    p := new ExecutionReportData(1);
    c := new ExecutionReportData(1);
    ghost var all := {p, c};
    NewPairIsForest(p, c);
    ExecutionReport(p).AddSubReport(all, 0, ExecutionReport(c));
    assert TreeOf(all)[p].subs == [] + [c];
    assert ValuesOf(all)[p].status == Pending && !ValuesOf(all)[p].error && !ValuesOf(all)[p].warning;
    assert ValuesOf(all)[c].status == Pending && !ValuesOf(all)[c].error && !ValuesOf(all)[c].warning;
  }

  lemma {:induction false} NewPairIsForest(p: ExecutionReportData, c: ExecutionReportData)
    requires p != c && forall x | x in {p, c} :: x.parent == None && x.subReports == [] && x.depth == 0
    ensures Forest(TreeOf({p, c}), 0) && !Above(TreeOf({p, c}), 0, c, p)
  {
    var t := TreeOf({p, c});
    assert forall x | x in t :: Linked(t, 0, x);
  }

  /** Puts one of two reports to work. */
  method Start(x: ExecutionReportData, ghost y: ExecutionReportData)
    requires x != y && Forest(TreeOf({x, y}), 1) && x.status == Pending
    modifies {x, y}`status, {x, y}`warningLogged, {x, y}`errorLogged, {x, y}`progress, {x, y}`seen
    ensures TreeOf({x, y}) == old(TreeOf({x, y})) && x.status == Running && y.status == old(y.status)
    ensures x.errorLogged == old(x.errorLogged) && x.warningLogged == old(x.warningLogged)
    ensures y.errorLogged == old(y.errorLogged) && y.warningLogged == old(y.warningLogged)
  {
    ghost var all := {x, y};
    StartsRunning(TreeOf(all), ValuesOf(all), x, y);
    Report.GuardInit(ExecutionReport(x), all, 1);
    assert ValuesOf(all)[x].status == Running && ValuesOf(all)[y].status == old(y.status);
  }

  lemma {:induction false} StartsRunning(t: Tree, m: Values, x: Id, y: Id)
    requires Fits(t, 1, m) && x in t && y in t && x != y && m[x].status == Pending
    ensures var after := ReportModel.GuardInit(t, 1, m, x);
            && after[x].status == Running && after[x].error == m[x].error && after[x].warning == m[x].warning
            && after[y].status == m[y].status && after[y].error == m[y].error && after[y].warning == m[y].warning
  {
    SetStatusTouchesOne(t, 1, m, x, Running, x);
    SetStatusTouchesOne(t, 1, m, x, Running, y);
  }

  /** Finishing a report does not finish a sub report that still runs and has logged nothing. */
  method QuietSubReportStaysRunning() returns (p: ExecutionReportData, c: ExecutionReportData)
    ensures p.subReports == [c] && p.status == Finished && c.status == Running
  {
    p, c := NewPair();
    ghost var all := {p, c};
    assert {c, p} == all;
    Start(p, c);
    Start(c, p);
    ghost var t, m := TreeOf(all), ValuesOf(all);
    assert t[p].subs == [c];
    LeavesQuietSubAlone(t, m, p, c);
    Report.GuardFinish(ExecutionReport(p), all, 1, false);
    assert TreeOf(all)[p].subs == [c];
    assert ValuesOf(all)[p].status == Finished && ValuesOf(all)[c].status == Running;
  }

  lemma {:induction false} LeavesQuietSubAlone(t: Tree, m: Values, x: Id, c: Id)
    requires Fits(t, 1, m) && x in t && c in t && x != c && Subs(t, 1, x) == [c]
    requires m[x].status == Running && !m[x].error && !m[x].warning
    requires m[c].status == Running && !m[c].error && !m[c].warning
    ensures var after := ReportModel.GuardFinish(t, 1, m, x, false);
            after[x].status == Finished && after[c].status == Running
  {
    var v := SubVerdict(m, false, false);
    assert FinishSub(t, 1, v, c) == v;
    assert FinishSubs(t, 1, v, [c]) == FinishSubs(t, 1, v, [c][1..]);
    SetStatusTouchesOne(t, 1, m, x, Finished, x);
    SetStatusTouchesOne(t, 1, m, x, Finished, c);
  }
}
