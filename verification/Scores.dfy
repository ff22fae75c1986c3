// The readiness scores as strings, the fold that takes the worst, and the scorer of one component.

module Scores {
  import opened Options
  import opened Sorting

  /** `Other` stands for any severity string without a rank. */
  datatype Score = Green | Yellow | Orange | Unknown | Blocked | Red | Other(name: string)

  /** Strings without a rank count like GREEN. */
  function Rank(s: Score): (r: nat)
    ensures r <= 5
  {
    match s
    case Yellow => 1
    case Orange => 2
    case Unknown => 3
    case Blocked => 4
    case Red => 5
    case _ => 0
  }

  /** `worst`: on equal ranks the first argument stays. */
  function Worst(a: Score, b: Score): Score {
    if Rank(a) >= Rank(b) then a else b
  }

  function Join(scores: seq<Score>): Score {
    if scores == [] then Green else Worst(Join(scores[..|scores| - 1]), scores[|scores| - 1])
  }

  /** The fold never gives an unranked string, gives GREEN or one of those folded, and none is worse. */
  lemma {:induction false} JoinIsLeastUpper(scores: seq<Score>)
    ensures !Join(scores).Other?
    ensures Join(scores) == Green || Join(scores) in scores
    ensures forall s :: s in scores ==> Rank(s) <= Rank(Join(scores))
  {
    if scores != [] {
      JoinIsLeastUpper(scores[..|scores| - 1]);
      assert scores == scores[..|scores| - 1] + [scores[|scores| - 1]];
    }
  }

  /** The fold only depends on which ranked scores above GREEN occur. */
  lemma JoinOfSameMembers(a: seq<Score>, b: seq<Score>)
    requires forall s :: Rank(s) > 0 ==> (s in a <==> s in b)
    ensures Join(a) == Join(b)
  {
    JoinIsLeastUpper(a);
    JoinIsLeastUpper(b);
  }

  lemma {:induction false} JoinAppend(a: seq<Score>, b: seq<Score>)
    ensures Join(a + b) == Worst(Join(a), Join(b))
  {
    JoinIsLeastUpper(a);
    if b == [] {
      assert a + b == a;
    } else {
      JoinAppend(a, b[..|b| - 1]);
      assert (a + b)[..|a + b| - 1] == a + b[..|b| - 1];
    }
  }

  // ---- one component ----

  datatype NodeType = Host | Vm | Container | Storage | Network | OtherType

  datatype RunState = Failed | Warning | OtherState

  datatype GapKind = MissingBackup | MissingRestoreProcedure | StaleBackup | UntestedRestore | MissingDependencyInfo

  datatype Gap = Gap(kind: GapKind, severity: Score)

  /** A backup job; `testAge` is the age of the last restore test in days where its date can be read. */
  datatype Job = Job(ageDays: Option<int>, lastRunState: RunState, restoreTested: bool, testAge: Option<int>)

  function Severities(gaps: seq<Gap>): (r: seq<Score>)
    ensures |r| == |gaps| && forall i :: 0 <= i < |gaps| ==> r[i] == gaps[i].severity
  {
    if gaps == [] then [] else Severities(gaps[..|gaps| - 1]) + [gaps[|gaps| - 1].severity]
  }

  lemma SeveritiesAppend(a: seq<Gap>, b: seq<Gap>)
    ensures Severities(a + b) == Severities(a) + Severities(b)
  {
  }

  function GapJoin(gaps: seq<Gap>): Score {
    Join(Severities(gaps))
  }

  /** (yellow, orange) age limits in days */
  function AgeLimits(nodeType: NodeType): (int, int) {
    match nodeType
    case Host => (2, 7)
    case Storage => (2, 14)
    case _ => (7, 30)
  }

  const RESTORE_TEST_MAX_DAYS := 90

  class ComponentScorer {
    var score: Score
    var gaps: seq<Gap>

    constructor ()
      ensures Valid() && gaps == []
    {
      score, gaps := Green, [];
    }

    /** The score is the join of the gaps found so far. */
    ghost predicate Valid()
      reads this
    {
      score == GapJoin(gaps)
    }

    method AddGap(kind: GapKind, severity: Score)
      requires Valid()
      modifies this
      ensures Valid() && gaps == old(gaps) + [Gap(kind, severity)]
    {
      gaps := gaps + [Gap(kind, severity)];
      score := Worst(score, severity);
      assert gaps[..|gaps| - 1] == old(gaps);
    }

    /** Without an inventory two gaps are listed and the score is raised once. */
    method ScoreBackup(nodeType: NodeType, hasInventory: bool, job: Option<Job>)
      requires Valid()
      modifies this
      ensures Valid() && gaps == old(gaps) + BackupGaps(nodeType, hasInventory, job)
    {
      if !hasInventory {
        BackupJoin(nodeType, hasInventory, job);
        GapJoinAppend(gaps, NO_INVENTORY);
        GapJoinAppend([Gap(MissingBackup, Yellow)], [Gap(MissingRestoreProcedure, Yellow)]);
        GapJoinOne(Gap(MissingBackup, Yellow));
        gaps := gaps + [Gap(MissingBackup, Yellow)];
        gaps := gaps + [Gap(MissingRestoreProcedure, Yellow)];
        score := Worst(score, Yellow);
        assert gaps == old(gaps) + NO_INVENTORY;
        assert [Gap(MissingBackup, Yellow)] + [Gap(MissingRestoreProcedure, Yellow)] == NO_INVENTORY;
        GapJoinOne(Gap(MissingRestoreProcedure, Yellow));
      } else if job.None? {
        if NeedsOwnBackup(nodeType) { AddGap(MissingBackup, Red); }
      } else {
        ScoreJob(job.value, nodeType);
      }
    }

    method ScoreJob(job: Job, nodeType: NodeType)
      requires Valid()
      modifies this
      ensures Valid() && gaps == old(gaps) + JobGaps(Some(job), nodeType)
    {
      ghost var state, age, test := RunStateGaps(job.lastRunState), AgeGaps(job.ageDays, nodeType),
                                    RestoreTestGaps(job.restoreTested, job.testAge);
      ScoreRunState(job.lastRunState);
      ScoreAge(job.ageDays, nodeType);
      ScoreRestoreTest(job.restoreTested, job.testAge);
      AppendAssoc(old(gaps), state, age);
      AppendAssoc(old(gaps), state + age, test);
    }

    method ScoreAll(nodeType: NodeType, hasInventory: bool, job: Option<Job>, offsite: bool, depInfo: bool)
      requires Valid() && gaps == []
      modifies this
      ensures Valid() && gaps == ComponentGaps(nodeType, hasInventory, job, offsite, depInfo)
    {
      ghost var backup := BackupGaps(nodeType, hasInventory, job);
      ScoreBackup(nodeType, hasInventory, job);
      assert [] + backup == backup;
      ScoreDependencyInfo(depInfo);
      ScoreOffsite(hasInventory && job.Some?, offsite, nodeType);
    }

    method ScoreDependencyInfo(depInfo: bool)
      requires Valid()
      modifies this
      ensures Valid() && gaps == old(gaps) + DependencyGaps(depInfo)
    {
      if !depInfo { AddGap(MissingDependencyInfo, Yellow); }
    }

    method ScoreOffsite(backedUp: bool, covered: bool, nodeType: NodeType)
      requires Valid()
      modifies this
      ensures Valid() && gaps == old(gaps) + OffsiteGaps(backedUp, covered, nodeType)
    {
      if backedUp && !covered && (nodeType == Host || nodeType == Storage) { AddGap(MissingBackup, Yellow); }
    }

    method ScoreRunState(state: RunState)
      requires Valid()
      modifies this
      ensures Valid() && gaps == old(gaps) + RunStateGaps(state)
    {
      if state == Failed { AddGap(MissingBackup, Red); }
      else if state == Warning { AddGap(StaleBackup, Yellow); }
    }

    method ScoreAge(ageDays: Option<int>, nodeType: NodeType)
      requires Valid()
      modifies this
      ensures Valid() && gaps == old(gaps) + AgeGaps(ageDays, nodeType)
    {
      if ageDays.Some? {
        var (yellow, orange) := AgeLimits(nodeType);
        if ageDays.value > orange { AddGap(StaleBackup, Orange); }
        else if ageDays.value > yellow { AddGap(StaleBackup, Yellow); }
      }
    }

    method ScoreRestoreTest(tested: bool, testAge: Option<int>)
      requires Valid()
      modifies this
      ensures Valid() && gaps == old(gaps) + RestoreTestGaps(tested, testAge)
    {
      if !tested { AddGap(UntestedRestore, Yellow); }
      else if testAge.Some? && testAge.value > RESTORE_TEST_MAX_DAYS { AddGap(UntestedRestore, Yellow); }
    }
  }

  function RunStateGaps(state: RunState): seq<Gap> {
    if state == Failed then [Gap(MissingBackup, Red)]
    else if state == Warning then [Gap(StaleBackup, Yellow)] else []
  }

  function AgeGaps(ageDays: Option<int>, nodeType: NodeType): seq<Gap> {
    if ageDays.Some? && ageDays.value > AgeLimits(nodeType).1 then [Gap(StaleBackup, Orange)]
    else if ageDays.Some? && ageDays.value > AgeLimits(nodeType).0 then [Gap(StaleBackup, Yellow)] else []
  }

  function RestoreTestGaps(tested: bool, testAge: Option<int>): seq<Gap> {
    if !tested || (testAge.Some? && testAge.value > RESTORE_TEST_MAX_DAYS) then [Gap(UntestedRestore, Yellow)] else []
  }

  predicate NeedsOwnBackup(nodeType: NodeType) {
    nodeType != Storage && nodeType != Network
  }

  function JobGaps(job: Option<Job>, nodeType: NodeType): seq<Gap> {
    if job.None? then (if NeedsOwnBackup(nodeType) then [Gap(MissingBackup, Red)] else [])
    else RunStateGaps(job.value.lastRunState) + AgeGaps(job.value.ageDays, nodeType)
         + RestoreTestGaps(job.value.restoreTested, job.value.testAge)
  }

  function OffsiteGaps(backedUp: bool, covered: bool, nodeType: NodeType): seq<Gap> {
    if backedUp && !covered && (nodeType == Host || nodeType == Storage) then [Gap(MissingBackup, Yellow)] else []
  }

  const NO_INVENTORY := [Gap(MissingBackup, Yellow), Gap(MissingRestoreProcedure, Yellow)]

  function BackupGaps(nodeType: NodeType, hasInventory: bool, job: Option<Job>): seq<Gap> {
    if hasInventory then JobGaps(job, nodeType) else NO_INVENTORY
  }

  function DependencyGaps(depInfo: bool): seq<Gap> {
    if depInfo then [] else [Gap(MissingDependencyInfo, Yellow)]
  }

  /** The gaps of a component, in the order they are found. */
  function ComponentGaps(nodeType: NodeType, hasInventory: bool, job: Option<Job>, offsite: bool, depInfo: bool): seq<Gap> {
    BackupGaps(nodeType, hasInventory, job) + DependencyGaps(depInfo)
    + OffsiteGaps(hasInventory && job.Some?, offsite, nodeType)
  }

  method ScoreComponent(nodeType: NodeType, hasInventory: bool, job: Option<Job>, offsite: bool, depInfo: bool)
    returns (score: Score, gaps: seq<Gap>)
    ensures gaps == ComponentGaps(nodeType, hasInventory, job, offsite, depInfo)
    ensures score == GapJoin(gaps)
  {
    var s := new ComponentScorer();
    s.ScoreAll(nodeType, hasInventory, job, offsite, depInfo);
    score, gaps := s.score, s.gaps;
  }

  lemma GapJoinAppend(a: seq<Gap>, b: seq<Gap>)
    ensures GapJoin(a + b) == Worst(GapJoin(a), GapJoin(b))
  {
    SeveritiesAppend(a, b);
    JoinAppend(Severities(a), Severities(b));
  }

  lemma GapJoinOne(g: Gap)
    requires Rank(g.severity) > 0
    ensures GapJoin([g]) == g.severity
  {
    JoinIsLeastUpper(Severities([g]));
    assert Severities([g]) == [g.severity];
    assert g.severity in Severities([g]);
  }

  /** What the gaps about backup jobs add up to. */
  lemma BackupJoin(nodeType: NodeType, hasInventory: bool, job: Option<Job>)
    ensures var s := GapJoin(BackupGaps(nodeType, hasInventory, job));
      && s in {Green, Yellow, Orange, Red}
      && (s == Red <==> hasInventory && if job.None? then NeedsOwnBackup(nodeType) else job.value.lastRunState == Failed)
  {
    GapJoinOne(Gap(MissingBackup, Red));
    if !hasInventory {
      GapJoinAppend([Gap(MissingBackup, Yellow)], [Gap(MissingRestoreProcedure, Yellow)]);
      GapJoinOne(Gap(MissingBackup, Yellow));
      GapJoinOne(Gap(MissingRestoreProcedure, Yellow));
      assert [Gap(MissingBackup, Yellow)] + [Gap(MissingRestoreProcedure, Yellow)] == NO_INVENTORY;
    } else if job.Some? {
      JobJoin(job.value, nodeType);
    }
  }

  lemma JobJoin(job: Job, nodeType: NodeType)
    ensures var s := GapJoin(JobGaps(Some(job), nodeType)); s in {Green, Yellow, Orange, Red} && (s == Red <==> job.lastRunState == Failed)
  {
    var state, age := RunStateGaps(job.lastRunState), AgeGaps(job.ageDays, nodeType);
    var test := RestoreTestGaps(job.restoreTested, job.testAge);
    GapJoinAppend(state + age, test);
    GapJoinAppend(state, age);
    RunStateJoin(job.lastRunState);
    AgeJoin(job.ageDays, nodeType);
    RestoreTestJoin(job.restoreTested, job.testAge);
    WorstOfThree(GapJoin(state), GapJoin(age), GapJoin(test));
  }

  lemma WorstOfThree(a: Score, b: Score, c: Score)
    requires a in {Green, Yellow, Red} && b in {Green, Yellow, Orange} && c in {Green, Yellow}
    ensures var s := Worst(Worst(a, b), c); s in {Green, Yellow, Orange, Red} && (s == Red <==> a == Red)
  {
  }

  lemma RunStateJoin(state: RunState)
    ensures GapJoin(RunStateGaps(state)) in {Green, Yellow, Red} && (GapJoin(RunStateGaps(state)) == Red <==> state == Failed)
  {
    AtMostOne(RunStateGaps(state));
  }

  lemma AgeJoin(ageDays: Option<int>, nodeType: NodeType)
    ensures GapJoin(AgeGaps(ageDays, nodeType)) in {Green, Yellow, Orange}
  {
    AtMostOne(AgeGaps(ageDays, nodeType));
  }

  lemma RestoreTestJoin(tested: bool, testAge: Option<int>)
    ensures GapJoin(RestoreTestGaps(tested, testAge)) in {Green, Yellow}
  {
    AtMostOne(RestoreTestGaps(tested, testAge));
  }

  lemma AtMostOne(gaps: seq<Gap>)
    requires |gaps| <= 1 && forall g :: g in gaps ==> Rank(g.severity) > 0
    ensures GapJoin(gaps) == if gaps == [] then Green else gaps[0].severity
  {
    if gaps != [] {
      assert gaps == [gaps[0]];
      GapJoinOne(gaps[0]);
    }
  }

  /** A component starts RED exactly when its backup is known to be missing or to have failed; never BLOCKED or UNKNOWN. */
  lemma RedIff(nodeType: NodeType, hasInventory: bool, job: Option<Job>, offsite: bool, depInfo: bool)
    ensures var s := GapJoin(ComponentGaps(nodeType, hasInventory, job, offsite, depInfo));
      && s in {Green, Yellow, Orange, Red}
      && (s == Red <==> hasInventory && if job.None? then NeedsOwnBackup(nodeType) else job.value.lastRunState == Failed)
  {
    var backup, dep := BackupGaps(nodeType, hasInventory, job), DependencyGaps(depInfo);
    var off := OffsiteGaps(hasInventory && job.Some?, offsite, nodeType);
    BackupJoin(nodeType, hasInventory, job);
    GapJoinAppend(backup + dep, off);
    GapJoinAppend(backup, dep);
    GapJoinOne(Gap(MissingDependencyInfo, Yellow));
    GapJoinOne(Gap(MissingBackup, Yellow));
  }

  // ----- Which gaps a component has, and what they come to -----

  /** From the best to the worst; strings without a rank count like GREEN. */
  lemma RanksAre(name: string)
    ensures Rank(Other(name)) == Rank(Green) < Rank(Yellow) < Rank(Orange) < Rank(Unknown) < Rank(Blocked) < Rank(Red)
  {
  }

  /** Days after which a backup is too old, by the type of component. */
  predicate OlderThan(age: Option<int>, nodeType: NodeType, host: int, storage: int, other: int) {
    age.Some? && age.value > if nodeType == Host then host else if nodeType == Storage then storage else other
  }

  predicate AgedOrange(job: Job, nodeType: NodeType) {
    OlderThan(job.ageDays, nodeType, 7, 14, 30)
  }

  predicate AgedYellow(job: Job, nodeType: NodeType) {
    OlderThan(job.ageDays, nodeType, 2, 2, 7) && !AgedOrange(job, nodeType)
  }

  /** The restore was never tested, or more than 90 days ago. */
  predicate Untested(job: Job) {
    !job.restoreTested || (job.testAge.Some? && job.testAge.value > 90)
  }

  /** Each gap and the reason for it. `job` is looked at only where there is a backup inventory. */
  predicate HasGap(g: Gap, nodeType: NodeType, hasInventory: bool, job: Option<Job>, offsite: bool, depInfo: bool) {
    var known := hasInventory && job.Some?;
    match g
    case Gap(MissingBackup, Red) =>
      hasInventory && if job.None? then nodeType != Storage && nodeType != Network else job.value.lastRunState == Failed
    case Gap(MissingBackup, Yellow) => !hasInventory || (known && !offsite && (nodeType == Host || nodeType == Storage))
    case Gap(MissingRestoreProcedure, Yellow) => !hasInventory
    case Gap(StaleBackup, Orange) => known && AgedOrange(job.value, nodeType)
    case Gap(StaleBackup, Yellow) => known && (job.value.lastRunState == Warning || AgedYellow(job.value, nodeType))
    case Gap(UntestedRestore, Yellow) => known && Untested(job.value)
    case Gap(MissingDependencyInfo, Yellow) => !depInfo
    case _ => false
  }

  lemma AgeGapsAre(job: Job, nodeType: NodeType, g: Gap)
    ensures g in AgeGaps(job.ageDays, nodeType)
      <==> (g == Gap(StaleBackup, Orange) && AgedOrange(job, nodeType)) || (g == Gap(StaleBackup, Yellow) && AgedYellow(job, nodeType))
  {
  }

  lemma JobGapsAre(job: Job, nodeType: NodeType, g: Gap)
    ensures g in JobGaps(Some(job), nodeType)
      <==> (|| (g == Gap(MissingBackup, Red) && job.lastRunState == Failed)
            || (g == Gap(StaleBackup, Orange) && AgedOrange(job, nodeType))
            || (g == Gap(StaleBackup, Yellow) && (job.lastRunState == Warning || AgedYellow(job, nodeType)))
            || (g == Gap(UntestedRestore, Yellow) && Untested(job)))
  {
    AgeGapsAre(job, nodeType, g);
  }

  /** A component has exactly the gaps there is a reason for. */
  lemma GapsAre(nodeType: NodeType, hasInventory: bool, job: Option<Job>, offsite: bool, depInfo: bool, g: Gap)
    ensures g in ComponentGaps(nodeType, hasInventory, job, offsite, depInfo) <==> HasGap(g, nodeType, hasInventory, job, offsite, depInfo)
  {
    if hasInventory && job.Some? { JobGapsAre(job.value, nodeType, g); }
    assert g == Gap(g.kind, g.severity);
  }

  /** Some gap has this severity and none has a worse one. */
  lemma JoinOfWorst(gaps: seq<Gap>, worst: Gap)
    requires worst in gaps && Rank(worst.severity) > 0 && forall g :: g in gaps ==> Rank(g.severity) <= Rank(worst.severity)
    ensures GapJoin(gaps) == worst.severity
  {
    var i :| 0 <= i < |gaps| && gaps[i] == worst;
    JoinIsLeastUpper(Severities(gaps));
    assert Severities(gaps)[i] in Severities(gaps);
    forall s | s in Severities(gaps) ensures Rank(s) <= Rank(worst.severity) {
      var k :| 0 <= k < |gaps| && Severities(gaps)[k] == s;
      assert gaps[k] in gaps;
    }
  }

  predicate NeedsRed(nodeType: NodeType, hasInventory: bool, job: Option<Job>) {
    hasInventory && if job.None? then nodeType != Storage && nodeType != Network else job.value.lastRunState == Failed
  }

  predicate NeedsOrange(nodeType: NodeType, hasInventory: bool, job: Option<Job>) {
    hasInventory && job.Some? && AgedOrange(job.value, nodeType)
  }

  predicate NeedsYellow(nodeType: NodeType, hasInventory: bool, job: Option<Job>, offsite: bool, depInfo: bool) {
    || !hasInventory || !depInfo
    || (job.Some? && (job.value.lastRunState == Warning || AgedYellow(job.value, nodeType) || Untested(job.value)))
    || (job.Some? && !offsite && (nodeType == Host || nodeType == Storage))
  }

  lemma FirstGap(gaps: seq<Gap>)
    ensures gaps == [] || gaps[0] in gaps
  {
  }

  lemma SeverityOfGap(g: Gap, nodeType: NodeType, hasInventory: bool, job: Option<Job>, offsite: bool, depInfo: bool)
    requires HasGap(g, nodeType, hasInventory, job, offsite, depInfo)
    ensures || (g.severity == Red && NeedsRed(nodeType, hasInventory, job))
            || (g.severity == Orange && NeedsOrange(nodeType, hasInventory, job))
            || (g.severity == Yellow && NeedsYellow(nodeType, hasInventory, job, offsite, depInfo))
  {
  }

  lemma YellowGap(nodeType: NodeType, hasInventory: bool, job: Option<Job>, offsite: bool, depInfo: bool) returns (g: Gap)
    requires NeedsYellow(nodeType, hasInventory, job, offsite, depInfo)
    ensures g.severity == Yellow && HasGap(g, nodeType, hasInventory, job, offsite, depInfo)
  {
    g := Gap(
      if !hasInventory then MissingBackup
      else if !depInfo then MissingDependencyInfo
      else if job.value.lastRunState == Warning || AgedYellow(job.value, nodeType) then StaleBackup
      else if Untested(job.value) then UntestedRestore
      else MissingBackup, Yellow);
  }

  /** When a component is RED, ORANGE, YELLOW and GREEN. */
  lemma ScoreIs(nodeType: NodeType, hasInventory: bool, job: Option<Job>, offsite: bool, depInfo: bool)
    ensures GapJoin(ComponentGaps(nodeType, hasInventory, job, offsite, depInfo)) ==
      if NeedsRed(nodeType, hasInventory, job) then Red
      else if NeedsOrange(nodeType, hasInventory, job) then Orange
      else if NeedsYellow(nodeType, hasInventory, job, offsite, depInfo) then Yellow
      else Green
  {
    var gaps := ComponentGaps(nodeType, hasInventory, job, offsite, depInfo);
    forall g | g in gaps
      ensures || (g.severity == Red && NeedsRed(nodeType, hasInventory, job))
              || (g.severity == Orange && NeedsOrange(nodeType, hasInventory, job))
              || (g.severity == Yellow && NeedsYellow(nodeType, hasInventory, job, offsite, depInfo))
    {
      GapsAre(nodeType, hasInventory, job, offsite, depInfo, g);
      SeverityOfGap(g, nodeType, hasInventory, job, offsite, depInfo);
    }
    if NeedsRed(nodeType, hasInventory, job) {
      WorstGap(nodeType, hasInventory, job, offsite, depInfo, Gap(MissingBackup, Red));
    } else if NeedsOrange(nodeType, hasInventory, job) {
      WorstGap(nodeType, hasInventory, job, offsite, depInfo, Gap(StaleBackup, Orange));
    } else if NeedsYellow(nodeType, hasInventory, job, offsite, depInfo) {
      var g := YellowGap(nodeType, hasInventory, job, offsite, depInfo);
      WorstGap(nodeType, hasInventory, job, offsite, depInfo, g);
    } else {
      FirstGap(gaps);
    }
  }

  lemma WorstGap(nodeType: NodeType, hasInventory: bool, job: Option<Job>, offsite: bool, depInfo: bool, worst: Gap)
    requires HasGap(worst, nodeType, hasInventory, job, offsite, depInfo) && Rank(worst.severity) > 0
    requires var gaps := ComponentGaps(nodeType, hasInventory, job, offsite, depInfo);
      forall g :: g in gaps ==> Rank(g.severity) <= Rank(worst.severity)
    ensures GapJoin(ComponentGaps(nodeType, hasInventory, job, offsite, depInfo)) == worst.severity
  {
    GapsAre(nodeType, hasInventory, job, offsite, depInfo, worst);
    JoinOfWorst(ComponentGaps(nodeType, hasInventory, job, offsite, depInfo), worst);
  }
}
