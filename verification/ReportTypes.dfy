/** The execution report's data, its status values and its progress type. */
module ReportTypes {
  import opened Arithmetic
  import opened Wrappers

  datatype ExecutionStatus = Pending | Running | CancelRequest | Cancelled | Finished | Warning | Error

  predicate IsFinal(s: ExecutionStatus) {
    match s
    case Pending => false
    case Running => false
    case CancelRequest => false
    case Cancelled => true
    case Finished => true
    case Warning => true
    case Error => true
  }

  datatype ExecutionLogCategory = InfoLog | WarningLog | ErrorLog | SuccessLog | DebugLog

  datatype ExecutionEventType = StatusChanged | ProgressChanged | MessageAdded | SubReportAdded

  /** An event as an observer receives it: the report it originates from and its type. */
  datatype ExecutionEvent = ExecutionEvent(origin: ExecutionReportData, kind: ExecutionEventType)

  // ---------- progress ----------

  /** What an execution progress can hold. */
  type Progress = p: nat | p <= 100

  /** A progress made from an int: cut down to one byte first, then clamped. */
  function ProgressFromInt(value: int): (p: Progress)
    ensures 0 <= value <= 100 ==> p == value
  {
    if value % 256 <= 100 then value % 256 else 100
  }

  /** Clamping is what the conversion does exactly for the values whose byte says the same. */
  lemma {:induction false} ProgressFromIntClampsIff(value: int)
    ensures ProgressFromInt(value) == (if value < 0 then 0 else if value > 100 then 100 else value)
            <==> 0 <= value < 256 || (value < 0 && value % 256 == 0) || (value >= 256 && value % 256 >= 100)
  {
  }

  /** 300 is not clamped to 100. */
  lemma {:induction false} ThreeHundredBecomesFortyFour()
    ensures ProgressFromInt(300) == 44
  {
  }

  /** `round` of the quotient of two naturals: half a point rounds up. */
  function RoundedRatio(total: nat, weight: nat): nat
    requires weight > 0
  {
    (2 * total + weight) / (2 * weight)
  }

  /** The rounded ratio lies within half of the exact one, and rounds the half up. */
  lemma {:induction false} RoundedRatioIsNearest(total: nat, weight: nat)
    requires weight > 0
    ensures -(weight as int) <= 2 * (total - RoundedRatio(total, weight) * weight) < weight
  {
    var q := RoundedRatio(total, weight);
    assert 2 * total + weight == q * (2 * weight) + (2 * total + weight) % (2 * weight);
    assert q * (2 * weight) == 2 * (q * weight);
  }

  lemma {:induction false} RoundedRatioOfMultiple(k: nat, weight: nat)
    requires weight > 0
    ensures RoundedRatio(k * weight, weight) == k
  {
    assert 2 * (k * weight) == k * (2 * weight);
    DivisionIsUnique(2 * (k * weight) + weight, 2 * weight, k, weight);
  }

  lemma {:induction false} RoundedRatioMonotone(a: nat, b: nat, weight: nat)
    requires weight > 0 && a <= b
    ensures RoundedRatio(a, weight) <= RoundedRatio(b, weight)
  {
    DivisionMonotone(2 * a + weight, 2 * b + weight, 2 * weight);
  }

  lemma {:induction false} RoundedRatioBounds(total: nat, weight: nat, lo: nat, hi: nat)
    requires weight > 0 && lo * weight <= total <= hi * weight
    ensures lo <= RoundedRatio(total, weight) <= hi
  {
    RoundedRatioOfMultiple(lo, weight);
    RoundedRatioOfMultiple(hi, weight);
    RoundedRatioMonotone(lo * weight, total, weight);
    RoundedRatioMonotone(total, hi * weight, weight);
  }

  // ---------- the report data ----------

  /** The data handles share. `seen` is what this report's observers have received so far. */
  class ExecutionReportData {
    var parent: Option<ExecutionReportData>
    var subReports: seq<ExecutionReportData>
    var status: ExecutionStatus
    var progress: Progress
    var weight: nat
    var warningLogged: bool
    var errorLogged: bool
    var seen: seq<ExecutionEvent>
    /** How many reports lie above this one. */
    ghost var depth: nat

    constructor (weight: nat)
      ensures parent == None && subReports == [] && this.weight == weight
      ensures status == Pending && progress == 0 && !warningLogged && !errorLogged
      ensures seen == [] && depth == 0
    {
      parent, subReports, this.weight := None, [], weight;
      status, progress, warningLogged, errorLogged := Pending, 0, false, false;
      seen, depth := [], 0;
    }
  }
}
