/**
 * The admin pipeline: the stage of an application, the filter that selects a stage in SQL
 * with its three-valued logic, and the counts on the stage tabs.
 */
module StageFilter {
  import opened Wrappers

  datatype Stage = Screening | WithQ3 | CompanyReview | Interview | Selection | Joined | Closed

  const STAGES := [Screening, WithQ3, CompanyReview, Interview, Selection, Joined, Closed]

  const STAGE_OF_STATUS: map<int, Stage> := map[
    1 := Screening, 10 := Screening, 11 := Screening, 12 := Screening,
    14 := WithQ3,
    15 := CompanyReview, 2 := CompanyReview,
    3 := Interview, 6 := Interview, 7 := Interview, 8 := Interview, 9 := Interview,
    16 := Interview, 17 := Interview, 18 := Interview, 19 := Interview,
    4 := Selection, 20 := Selection, 21 := Selection,
    22 := Joined,
    5 := Closed, 13 := Closed, 23 := Closed]

  /** An unset or unknown status counts as Screening. */
  function StageOf(status: Option<int>): Stage {
    if status.Some? && status.value in STAGE_OF_STATUS then STAGE_OF_STATUS[status.value] else Screening
  }

  /* ---------- SQL conditions ---------- */

  datatype Truth = True | False | Unknown

  datatype Condition =
    | In(ids: set<int>)
    | NotIn(ids: set<int>)
    | IsNull
    | Or(left: Condition, right: Condition)

  /** SQL: a comparison with NULL is unknown, and OR is true if either side is. */
  function Eval(c: Condition, status: Option<int>): Truth {
    match c
    case In(ids) => if status.None? then Unknown else if status.value in ids then True else False
    case NotIn(ids) => if status.None? then Unknown else if status.value in ids then False else True
    case IsNull => if status.None? then True else False
    case Or(l, r) =>
      if Eval(l, status) == True || Eval(r, status) == True then True
      else if Eval(l, status) == False && Eval(r, status) == False then False
      else Unknown
  }

  function IdsOf(stage: Stage): set<int> {
    set id | id in STAGE_OF_STATUS && STAGE_OF_STATUS[id] == stage
  }

  function StageWhere(stage: Stage): Condition {
    if stage == Screening then Or(In(IdsOf(stage)), Or(IsNull, NotIn(STAGE_OF_STATUS.Keys)))
    else In(IdsOf(stage))
  }

  /** A row passes a WHERE only if the condition is true: false and unknown both drop it. */
  predicate Passes(stage: Stage, status: Option<int>) { Eval(StageWhere(stage), status) == True }

  /** The stages as sets of status ids; whatever is unset or in none of the others is Screening. */
  lemma StagesAreTheseStatuses(status: Option<int>)
    ensures StageOf(status) == WithQ3 <==> status == Some(14)
    ensures StageOf(status) == CompanyReview <==> status in {Some(2), Some(15)}
    ensures StageOf(status) == Interview <==>
            status in {Some(3), Some(6), Some(7), Some(8), Some(9), Some(16), Some(17), Some(18), Some(19)}
    ensures StageOf(status) == Selection <==> status in {Some(4), Some(20), Some(21)}
    ensures StageOf(status) == Joined <==> status == Some(22)
    ensures StageOf(status) == Closed <==> status in {Some(5), Some(13), Some(23)}
  {
  }

  /** The filter agrees with the stage on every status, NULL and unlisted ones included. */
  lemma FilterAgreesWithStage(stage: Stage, status: Option<int>)
    ensures Passes(stage, status) <==> StageOf(status) == stage
  {
    if stage == Screening {
      var rest := Or(IsNull, NotIn(STAGE_OF_STATUS.Keys));
      assert Eval(rest, status) == True <==> status.None? || status.value !in STAGE_OF_STATUS;
      assert Eval(In(IdsOf(stage)), status) == True <==> status.Some? && status.value in IdsOf(stage);
    }
  }

  /** Left to NOT IN alone, a row with no status would be on no tab: the test for NULL is needed. */
  lemma NullNeedsItsOwnTest()
    ensures Eval(NotIn(STAGE_OF_STATUS.Keys), None) == Unknown
    ensures Eval(Or(In(IdsOf(Screening)), NotIn(STAGE_OF_STATUS.Keys)), None) == Unknown
    ensures StageOf(None) == Screening
  {
  }

  /* ---------- the tab counts ---------- */

  /** An application: its status, and whether it passes the other filters of the query. */
  datatype Row = Row(status: Option<int>, selected: bool)

  /** SELECT count(*) with the other filters and the stage condition. */
  function Total(rows: seq<Row>, stage: Stage): nat {
    if rows == [] then 0
    else (if rows[0].selected && Passes(stage, rows[0].status) then 1 else 0) + Total(rows[1..], stage)
  }

  /** SELECT count(*) with the other filters only. */
  function TotalAll(rows: seq<Row>): nat {
    if rows == [] then 0 else (if rows[0].selected then 1 else 0) + TotalAll(rows[1..])
  }

  lemma {:induction false} TotalSnoc(rows: seq<Row>, r: Row, stage: Stage)
    ensures Total(rows + [r], stage) == Total(rows, stage) + if r.selected && Passes(stage, r.status) then 1 else 0
  {
    if rows == [] {
      assert [r][1..] == [] && [] + [r] == [r];
    } else {
      assert (rows + [r])[1..] == rows[1..] + [r];
      TotalSnoc(rows[1..], r, stage);
    }
  }

  /** The selected rows, by position, whose stage is the one asked for. */
  ghost function Chosen(rows: seq<Row>, stage: Stage): set<int> {
    set i | 0 <= i < |rows| && rows[i].selected && StageOf(rows[i].status) == stage
  }

  lemma ChosenSnoc(rows: seq<Row>, r: Row, stage: Stage)
    ensures Chosen(rows + [r], stage) ==
            Chosen(rows, stage) + if r.selected && StageOf(r.status) == stage then {|rows|} else {}
  {
    assert forall i | 0 <= i < |rows| :: (rows + [r])[i] == rows[i];
  }

  /** The count is the number of selected rows whose stage is the one asked for. */
  lemma {:induction false} TotalCountsRows(rows: seq<Row>, stage: Stage)
    ensures Total(rows, stage) == |Chosen(rows, stage)|
  {
    if rows != [] {
      var n := |rows| - 1;
      TotalCountsRows(rows[..n], stage);
      assert rows == rows[..n] + [rows[n]];
      TotalSnoc(rows[..n], rows[n], stage);
      ChosenSnoc(rows[..n], rows[n], stage);
      FilterAgreesWithStage(stage, rows[n].status);
    }
  }

  /** One group of GROUP BY status. */
  function GroupCount(rows: seq<Row>, status: Option<int>): nat {
    if rows == [] then 0
    else (if rows[0].selected && rows[0].status == status then 1 else 0) + GroupCount(rows[1..], status)
  }

  datatype Group = Group(status: Option<int>, count: nat)

  /** Each status of a selected row heads exactly one group, with its count. */
  ghost predicate Grouped(rows: seq<Row>, groups: seq<Group>) {
    && (forall i | 0 <= i < |groups| :: groups[i].count == GroupCount(rows, groups[i].status))
    && (forall i, j | 0 <= i < j < |groups| :: groups[i].status != groups[j].status)
    && (forall r | r in rows && r.selected :: exists i :: 0 <= i < |groups| && groups[i].status == r.status)
  }

  /** Selected rows of the stage whose status heads one of the groups. */
  function Covered(rows: seq<Row>, groups: seq<Group>, stage: Stage): nat {
    if groups == [] then 0
    else
      var n := |groups| - 1;
      Covered(rows, groups[..n], stage)
      + (if StageOf(groups[n].status) == stage then GroupCount(rows, groups[n].status) else 0)
  }

  predicate Heads(groups: seq<Group>, status: Option<int>) {
    exists i :: 0 <= i < |groups| && groups[i].status == status
  }

  /** Taking one row off takes one off its stage's groups. */
  lemma {:induction false} CoveredStep(rows: seq<Row>, groups: seq<Group>, stage: Stage)
    requires rows != []
    requires forall i, j | 0 <= i < j < |groups| :: groups[i].status != groups[j].status
    ensures Covered(rows, groups, stage) == Covered(rows[1..], groups, stage)
            + (if rows[0].selected && StageOf(rows[0].status) == stage && Heads(groups, rows[0].status) then 1 else 0)
  {
    if groups != [] {
      var n := |groups| - 1;
      CoveredStep(rows, groups[..n], stage);
      assert Heads(groups, rows[0].status) <==>
             Heads(groups[..n], rows[0].status) || groups[n].status == rows[0].status by {
        if Heads(groups[..n], rows[0].status) {
          var i :| 0 <= i < n && groups[..n][i].status == rows[0].status;
          assert groups[i].status == rows[0].status;
        }
        if Heads(groups, rows[0].status) {
          var i :| 0 <= i < |groups| && groups[i].status == rows[0].status;
          if i < n { assert groups[..n][i].status == rows[0].status; }
        }
      }
    }
  }

  lemma {:induction false} CoveredIsTotal(rows: seq<Row>, groups: seq<Group>, stage: Stage)
    requires forall i, j | 0 <= i < j < |groups| :: groups[i].status != groups[j].status
    requires forall r | r in rows && r.selected :: Heads(groups, r.status)
    ensures Covered(rows, groups, stage) == Total(rows, stage)
  {
    if rows == [] {
      CoveredNone(groups, stage);
    } else {
      CoveredStep(rows, groups, stage);
      CoveredIsTotal(rows[1..], groups, stage);
      FilterAgreesWithStage(stage, rows[0].status);
    }
  }

  lemma {:induction false} CoveredNone(groups: seq<Group>, stage: Stage)
    ensures Covered([], groups, stage) == 0
  {
    if groups != [] { CoveredNone(groups[..|groups| - 1], stage); }
  }

  lemma StageListed(s: Stage)
    ensures s in STAGES
  {
    match s
    case Screening => assert STAGES[0] == s;
    case WithQ3 => assert STAGES[1] == s;
    case CompanyReview => assert STAGES[2] == s;
    case Interview => assert STAGES[3] == s;
    case Selection => assert STAGES[4] == s;
    case Joined => assert STAGES[5] == s;
    case Closed => assert STAGES[6] == s;
  }

  /** Folds the groups of one snapshot into the tab counts. */
  method ByStage(groups: seq<Group>, ghost rows: seq<Row>) returns (byStage: map<Stage, nat>)
    requires Grouped(rows, groups)
    ensures forall s :: s in byStage && byStage[s] == Total(rows, s)
  {
    byStage := map s: Stage | s in STAGES :: 0;
    forall s: Stage ensures s in STAGES {
      StageListed(s);
    }
    for i := 0 to |groups|
      invariant forall s :: s in byStage
      invariant forall s :: byStage[s] == Covered(rows, groups[..i], s)
    {
      var stage := StageOf(groups[i].status);
      assert groups[..i + 1][..i] == groups[..i];
      byStage := byStage[stage := byStage[stage] + groups[i].count];
    }
    assert groups[..|groups|] == groups;
    forall s: Stage ensures byStage[s] == Total(rows, s) {
      CoveredIsTotal(rows, groups, s);
    }
  }

  /** Every selected row is on exactly one tab. */
  lemma {:induction false} TabsAddUp(rows: seq<Row>)
    ensures Total(rows, Screening) + Total(rows, WithQ3) + Total(rows, CompanyReview) + Total(rows, Interview)
            + Total(rows, Selection) + Total(rows, Joined) + Total(rows, Closed) == TotalAll(rows)
  {
    if rows != [] {
      TabsAddUp(rows[1..]);
      forall s ensures Passes(s, rows[0].status) <==> StageOf(rows[0].status) == s {
        FilterAgreesWithStage(s, rows[0].status);
      }
    }
  }
}
