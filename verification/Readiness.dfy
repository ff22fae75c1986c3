// BLOCKED propagation over the scored components, and the overall score.

module Readiness {
  import opened Options
  import opened Schedules
  import opened Scores
  import opened Sorting

  datatype Component = Component(score: Score, blockedBy: Option<string>, gaps: seq<Gap>)

  type Table = map<string, Component>

  function Prereqs(edges: seq<Edge>, id: string): seq<string> {
    if edges == [] then []
    else Prereqs(edges[..|edges| - 1], id) + if edges[|edges| - 1].src == id then [edges[|edges| - 1].dst] else []
  }

  predicate IsRed(t: Table, id: string) {
    id in t && t[id].score == Red
  }

  /** The first prerequisite that is RED now. */
  function FirstRed(t: Table, prereqs: seq<string>): (r: Option<string>)
    ensures r.Some? ==> r.value in prereqs && IsRed(t, r.value)
    ensures r.None? ==> forall p :: p in prereqs ==> !IsRed(t, p)
  {
    if prereqs == [] then None
    else if IsRed(t, prereqs[0]) then Some(prereqs[0])
    else FirstRed(t, prereqs[1..])
  }

  /** `p` is RED now, and no prerequisite before it is. */
  ghost predicate IsFirstRed(t: Table, prereqs: seq<string>, p: string) {
    exists i :: 0 <= i < |prereqs| && prereqs[i] == p && FirstRedAt(t, prereqs, i)
  }

  ghost predicate FirstRedAt(t: Table, prereqs: seq<string>, i: nat)
    requires i < |prereqs|
  {
    IsRed(t, prereqs[i]) && forall j :: 0 <= j < i ==> !IsRed(t, prereqs[j])
  }

  lemma {:induction false} FirstRedIs(t: Table, prereqs: seq<string>, p: string)
    ensures FirstRed(t, prereqs) == Some(p) <==> IsFirstRed(t, prereqs, p)
  {
    if prereqs != [] {
      var rest := prereqs[1..];
      FirstRedIs(t, rest, p);
      if IsRed(t, prereqs[0]) {
        assert FirstRedAt(t, prereqs, 0);
      } else {
        if i :| 0 <= i < |rest| && rest[i] == p && FirstRedAt(t, rest, i) {
          forall j | 0 <= j < i + 1 ensures !IsRed(t, prereqs[j]) { if j > 0 { assert prereqs[j] == rest[j - 1]; } }
          assert prereqs[i + 1] == p && FirstRedAt(t, prereqs, i + 1);
        }
        if i :| 0 < i < |prereqs| && prereqs[i] == p && FirstRedAt(t, prereqs, i) {
          forall j | 0 <= j < i - 1 ensures !IsRed(t, rest[j]) { assert rest[j] == prereqs[j + 1]; }
          assert rest[i - 1] == p && FirstRedAt(t, rest, i - 1);
        }
      }
    }
  }

  /** The prerequisites come in the order of the edges. */
  lemma {:induction false} PrereqsInOrder(e: Edge, edges: seq<Edge>, id: string)
    ensures Prereqs([e] + edges, id) == (if e.src == id then [e.dst] else []) + Prereqs(edges, id)
  {
    var all := [e] + edges;
    if edges == [] {
      assert all == [e] && all[..0] == [];
    } else {
      var init := edges[..|edges| - 1];
      assert all[..|all| - 1] == [e] + init && all[|all| - 1] == edges[|edges| - 1];
      PrereqsInOrder(e, init, id);
    }
  }

  /** What scanning one component does. */
  function Visit(t: Table, edges: seq<Edge>, id: string): Table
    requires id in t
  {
    if t[id].score == Blocked then t
    else
      var red := FirstRed(t, Prereqs(edges, id));
      if red.None? then t else t[id := t[id].(score := Blocked, blockedBy := red)]
  }

  /** Scanning the first k components in dictionary order, each seeing what the scan already changed. */
  function SweepTo(t: Table, edges: seq<Edge>, order: seq<string>, k: nat): (r: Table)
    requires k <= |order| && forall id :: id in order ==> id in t
    ensures r.Keys == t.Keys
  {
    if k == 0 then t else Visit(SweepTo(t, edges, order, k - 1), edges, order[k - 1])
  }

  ghost function OpenOnes(t: Table): set<string> {
    set id | id in t && t[id].score != Blocked
  }

  lemma {:induction false} SweepShrinks(t: Table, edges: seq<Edge>, order: seq<string>, k: nat)
    requires k <= |order| && forall id :: id in order ==> id in t
    ensures var r := SweepTo(t, edges, order, k); OpenOnes(r) <= OpenOnes(t) && (OpenOnes(r) == OpenOnes(t) ==> r == t)
  {
    if k > 0 {
      SweepShrinks(t, edges, order, k - 1);
      var before := SweepTo(t, edges, order, k - 1);
      var after := SweepTo(t, edges, order, k);
      if after != before {
        assert order[k - 1] in OpenOnes(before) && order[k - 1] !in OpenOnes(after);
      }
    }
  }

  /** Sweeping until nothing changes. */
  ghost function Propagated(t: Table, edges: seq<Edge>, order: seq<string>): (r: Table)
    requires forall id :: id in order ==> id in t
    ensures r.Keys == t.Keys
    decreases OpenOnes(t)
  {
    var next := SweepTo(t, edges, order, |order|);
    SweepShrinks(t, edges, order, |order|);
    if next == t then t else Propagated(next, edges, order)
  }

  // ---- what a run did, event by event ----

  /** `id` was set BLOCKED because of `cause`. */
  datatype Event = Event(id: string, cause: string)

  /** RED from the start and not BLOCKED by one of the first `n` events. */
  ghost predicate StillRed(init: Table, log: seq<Event>, n: nat, id: string)
    requires n <= |log|
  {
    IsRed(init, id) && forall j :: 0 <= j < n ==> log[j].id != id
  }

  /** The cause was the first of the prerequisites, in the order of the edges, that was still RED. */
  ghost predicate FirstCause(edges: seq<Edge>, init: Table, log: seq<Event>, i: nat)
    requires i < |log|
  {
    var ps := Prereqs(edges, log[i].id);
    exists k :: 0 <= k < |ps| && ps[k] == log[i].cause && forall m :: 0 <= m < k ==> !StillRed(init, log, i, ps[m])
  }

  /** The cause was a prerequisite, RED from the start and not BLOCKED by an earlier event. */
  ghost predicate Justified(edges: seq<Edge>, init: Table, log: seq<Event>, i: nat)
    requires i < |log|
  {
    var e := log[i];
    && e.id in init && init[e.id].score != Blocked && IsRed(init, e.cause) && e.cause in Prereqs(edges, e.id)
    && forall j :: 0 <= j < i ==> log[j].id != e.cause && log[j].id != e.id
  }

  ghost predicate Recorded(init: Table, log: seq<Event>, now: Table, i: nat)
    requires i < |log|
  {
    var e := log[i];
    e.id in init && e.id in now && now[e.id] == init[e.id].(score := Blocked, blockedBy := Some(e.cause))
  }

  ghost predicate Untouched(log: seq<Event>, id: string) {
    forall i :: 0 <= i < |log| ==> log[i].id != id
  }

  /** `now` came from `init` by exactly these events, in this order. */
  ghost predicate Chronicle(edges: seq<Edge>, init: Table, log: seq<Event>, now: Table) {
    && now.Keys == init.Keys
    && (forall i {:trigger Justified(edges, init, log, i)} :: 0 <= i < |log| ==> Justified(edges, init, log, i))
    && (forall i {:trigger FirstCause(edges, init, log, i)} :: 0 <= i < |log| ==> FirstCause(edges, init, log, i))
    && (forall i {:trigger Recorded(init, log, now, i)} :: 0 <= i < |log| ==> Recorded(init, log, now, i))
    && (forall id {:trigger Untouched(log, id)} :: id in init && Untouched(log, id) ==> now[id] == init[id])
  }

  lemma NothingHappened(edges: seq<Edge>, t: Table)
    ensures Chronicle(edges, t, [], t)
  {
  }

  lemma TouchedOrNot(edges: seq<Edge>, init: Table, log: seq<Event>, now: Table, id: string)
    requires Chronicle(edges, init, log, now) && id in init && now[id].score != Blocked
    ensures Untouched(log, id) && now[id] == init[id]
  {
    forall i | 0 <= i < |log| ensures log[i].id != id { assert Recorded(init, log, now, i); }
    assert Untouched(log, id);
  }

  lemma RedIsStillRed(edges: seq<Edge>, init: Table, log: seq<Event>, now: Table, id: string)
    requires Chronicle(edges, init, log, now) && StillRed(init, log, |log|, id)
    ensures IsRed(now, id)
  {
    assert Untouched(log, id);
  }

  lemma LaterEventsAside(init: Table, log: seq<Event>, e: Event, n: nat, id: string)
    requires n <= |log|
    ensures StillRed(init, log + [e], n, id) <==> StillRed(init, log, n, id)
  {
    assert forall j :: 0 <= j < n ==> log[j] == (log + [e])[j];
  }

  lemma NewCauseIsFirst(edges: seq<Edge>, init: Table, log: seq<Event>, now: Table, id: string, cause: string)
    requires Chronicle(edges, init, log, now) && FirstRed(now, Prereqs(edges, id)) == Some(cause)
    ensures FirstCause(edges, init, log + [Event(id, cause)], |log|)
  {
    var ps, more := Prereqs(edges, id), log + [Event(id, cause)];
    FirstRedIs(now, ps, cause);
    var k :| 0 <= k < |ps| && ps[k] == cause && FirstRedAt(now, ps, k);
    forall m | 0 <= m < k ensures !StillRed(init, more, |log|, ps[m]) {
      LaterEventsAside(init, log, Event(id, cause), |log|, ps[m]);
      if StillRed(init, log, |log|, ps[m]) { RedIsStillRed(edges, init, log, now, ps[m]); }
    }
  }

  lemma OldCauseIsFirst(edges: seq<Edge>, init: Table, log: seq<Event>, e: Event, i: nat)
    requires i < |log| && FirstCause(edges, init, log, i)
    ensures FirstCause(edges, init, log + [e], i)
  {
    var more := log + [e];
    forall id ensures StillRed(init, more, i, id) <==> StillRed(init, log, i, id) { LaterEventsAside(init, log, e, i, id); }
    assert more[i] == log[i];
  }

  /** One more event, if the visit changes anything. */
  lemma VisitIsEvent(edges: seq<Edge>, init: Table, log: seq<Event>, now: Table, id: string) returns (more: seq<Event>)
    requires Chronicle(edges, init, log, now) && id in now
    ensures Chronicle(edges, init, more, Visit(now, edges, id))
  {
    more := log;
    var next := Visit(now, edges, id);
    if next != now {
      var cause := FirstRed(now, Prereqs(edges, id)).value;
      more := log + [Event(id, cause)];
      TouchedOrNot(edges, init, log, now, id);
      TouchedOrNot(edges, init, log, now, cause);
      forall i | 0 <= i < |more| ensures Justified(edges, init, more, i) && Recorded(init, more, next, i) {
        if i < |log| {
          assert Justified(edges, init, log, i) && Recorded(init, log, now, i);
          assert more[i] == log[i];
        }
      }
      forall i | 0 <= i < |more| ensures FirstCause(edges, init, more, i) {
        if i < |log| { OldCauseIsFirst(edges, init, log, Event(id, cause), i); }
        else { NewCauseIsFirst(edges, init, log, now, id, cause); }
      }
      forall x | x in init && Untouched(more, x) ensures next[x] == init[x] {
        assert more[|log|].id != x;
        assert Untouched(log, x) by { assert forall i :: 0 <= i < |log| ==> more[i] == log[i]; }
      }
    }
  }

  lemma {:induction false} SweepIsEvents(edges: seq<Edge>, init: Table, log: seq<Event>, now: Table, order: seq<string>, k: nat)
    returns (more: seq<Event>)
    requires Chronicle(edges, init, log, now) && k <= |order| && forall id :: id in order ==> id in now
    ensures Chronicle(edges, init, more, SweepTo(now, edges, order, k))
  {
    more := log;
    if k > 0 {
      more := SweepIsEvents(edges, init, log, now, order, k - 1);
      more := VisitIsEvent(edges, init, more, SweepTo(now, edges, order, k - 1), order[k - 1]);
    }
  }

  lemma {:induction false} RunIsEvents(edges: seq<Edge>, init: Table, log: seq<Event>, now: Table, order: seq<string>)
    returns (more: seq<Event>)
    requires Chronicle(edges, init, log, now) && forall id :: id in order ==> id in now
    ensures Chronicle(edges, init, more, Propagated(now, edges, order))
    decreases OpenOnes(now)
  {
    var next := SweepTo(now, edges, order, |order|);
    SweepShrinks(now, edges, order, |order|);
    more := log;
    if next != now {
      more := SweepIsEvents(edges, init, log, now, order, |order|);
      more := RunIsEvents(edges, init, more, next, order);
    }
  }

  // ---- the final report ----

  /** No component left open has a RED prerequisite. */
  ghost predicate Settled(t: Table, edges: seq<Edge>) {
    forall id :: id in t && t[id].score != Blocked ==> FirstRed(t, Prereqs(edges, id)).None?
  }

  lemma {:induction false} UnchangedVisits(t: Table, edges: seq<Edge>, order: seq<string>, k: nat, id: string)
    requires k <= |order| && (forall x :: x in order ==> x in t) && SweepTo(t, edges, order, k) == t && id in order[..k]
    ensures Visit(t, edges, id) == t
  {
    SweepShrinks(t, edges, order, k - 1);
    var before := SweepTo(t, edges, order, k - 1);
    assert OpenOnes(t) <= OpenOnes(before) by {
      assert forall x :: x in t && t[x].score != Blocked ==> x in before && before[x].score != Blocked;
    }
    if id != order[k - 1] { UnchangedVisits(t, edges, order, k - 1, id); }
  }

  lemma {:induction false} RunSettles(t: Table, edges: seq<Edge>, order: seq<string>)
    requires forall id :: id in t <==> id in order
    ensures Settled(Propagated(t, edges, order), edges)
    decreases OpenOnes(t)
  {
    var next := SweepTo(t, edges, order, |order|);
    SweepShrinks(t, edges, order, |order|);
    if next == t {
      forall id | id in t && t[id].score != Blocked ensures FirstRed(t, Prereqs(edges, id)).None? {
        assert order[..|order|] == order;
        UnchangedVisits(t, edges, order, |order|, id);
      }
    } else {
      RunSettles(next, edges, order);
    }
  }

  ghost predicate BlockedBy(t: Table, id: string, cause: string) {
    id in t && t[id].score == Blocked && t[id].blockedBy == Some(cause)
  }

  /** Each but the last component is BLOCKED by the next. */
  ghost predicate IsBlame(t: Table, chain: seq<string>) {
    && chain != [] && Distinct(chain)
    && (forall k :: 0 <= k < |chain| ==> chain[k] in t)
    && (forall k :: 0 <= k < |chain| - 1 ==> BlockedBy(t, chain[k], chain[k + 1]))
  }

  ghost predicate BlocksItself(t: Table, id: string) {
    BlockedBy(t, id, id)
  }

  lemma BlameCons(t: Table, id: string, rest: seq<string>)
    requires IsBlame(t, rest) && BlockedBy(t, id, rest[0]) && id !in rest
    ensures IsBlame(t, [id] + rest)
  {
    var chain := [id] + rest;
    forall k | 0 <= k < |chain| - 1 ensures BlockedBy(t, chain[k], chain[k + 1]) {
      if k > 0 { assert BlockedBy(t, rest[k - 1], rest[k]); }
    }
  }

  /** Blame from event i on, through later events only. */
  lemma {:induction false} BlameFrom(edges: seq<Edge>, init: Table, log: seq<Event>, now: Table, i: nat)
    returns (chain: seq<string>)
    requires Chronicle(edges, init, log, now) && i < |log|
    ensures IsBlame(now, chain) && chain[0] == log[i].id
    ensures IsRed(now, chain[|chain| - 1]) || BlocksItself(now, chain[|chain| - 1])
    ensures forall k, j :: 0 <= k < |chain| && 0 <= j < i ==> chain[k] != log[j].id
    decreases |log| - i
  {
    var e := log[i];
    assert Justified(edges, init, log, i) && Recorded(init, log, now, i);
    chain := [e.id];
    if e.cause != e.id {
      if Untouched(log, e.cause) {
        chain := [e.id, e.cause];
        assert IsRed(now, e.cause) && BlockedBy(now, chain[0], chain[1]);
      } else {
        var j :| 0 <= j < |log| && log[j].id == e.cause;
        assert j > i;
        var rest := BlameFrom(edges, init, log, now, j);
        chain := [e.id] + rest;
        BlameCons(now, e.id, rest);
      }
    }
  }

  /** From any BLOCKED component the blame never circles: it ends at a RED component or at one that blocks itself. */
  lemma BlameEnds(init: Table, edges: seq<Edge>, order: seq<string>, id: string) returns (chain: seq<string>)
    requires (forall x :: x in order ==> x in init) && (forall x :: x in init ==> init[x].score != Blocked)
    requires id in init && Propagated(init, edges, order)[id].score == Blocked
    ensures var t := Propagated(init, edges, order);
      IsBlame(t, chain) && chain[0] == id && (IsRed(t, chain[|chain| - 1]) || BlocksItself(t, chain[|chain| - 1]))
  {
    NothingHappened(edges, init);
    var log := RunIsEvents(edges, init, [], init, order);
    assert !Untouched(log, id);
    var i :| 0 <= i < |log| && log[i].id == id;
    chain := BlameFrom(edges, init, log, Propagated(init, edges, order), i);
  }

  /** No component that starts RED depends on itself. */
  ghost predicate NoRedSelfEdge(init: Table, edges: seq<Edge>) {
    forall id :: IsRed(init, id) ==> id !in Prereqs(edges, id)
  }

  lemma {:induction false} PrereqsAreTargets(edges: seq<Edge>, id: string)
    ensures forall p :: p in Prereqs(edges, id) <==> HasEdge(edges, id, p)
  {
    if edges != [] {
      var init, last := edges[..|edges| - 1], edges[|edges| - 1];
      PrereqsAreTargets(init, id);
      assert edges == init + [last];
      forall p ensures HasEdge(edges, id, p) <==> HasEdge(init, id, p) || (last.src == id && last.dst == p) {
        assert last in edges;
      }
    }
  }

  /** Graphs without self-edges qualify. */
  lemma NoSelfEdges(init: Table, edges: seq<Edge>)
    requires forall e :: e in edges ==> e.src != e.dst
    ensures NoRedSelfEdge(init, edges)
  {
    forall id | IsRed(init, id) ensures id !in Prereqs(edges, id) { PrereqsAreTargets(edges, id); }
  }

  lemma NobodyBlocksItself(init: Table, edges: seq<Edge>, order: seq<string>, id: string)
    requires (forall x :: x in order ==> x in init) && (forall x :: x in init ==> init[x].score != Blocked)
    requires NoRedSelfEdge(init, edges)
    ensures !BlocksItself(Propagated(init, edges, order), id)
  {
    NothingHappened(edges, init);
    var log := RunIsEvents(edges, init, [], init, order);
    if id in init && !Untouched(log, id) {
      var i :| 0 <= i < |log| && log[i].id == id;
      assert Justified(edges, init, log, i) && Recorded(init, log, Propagated(init, edges, order), i);
    } else if id in init {
      assert Untouched(log, id);
    }
  }

  /** Without such self-edges, cyclic graphs or not, every blame ends at a component that is RED in the final report. */
  lemma BlameEndsRed(init: Table, edges: seq<Edge>, order: seq<string>, id: string) returns (chain: seq<string>)
    requires (forall x :: x in order ==> x in init) && (forall x :: x in init ==> init[x].score != Blocked)
    requires NoRedSelfEdge(init, edges)
    requires id in init && Propagated(init, edges, order)[id].score == Blocked
    ensures var t := Propagated(init, edges, order); IsBlame(t, chain) && chain[0] == id && IsRed(t, chain[|chain| - 1])
  {
    chain := BlameEnds(init, edges, order, id);
    NobodyBlocksItself(init, edges, order, chain[|chain| - 1]);
  }

  /** Propagation never erases the last RED. */
  lemma RedRemains(init: Table, edges: seq<Edge>, order: seq<string>, red: string) returns (left: string)
    requires (forall x :: x in order ==> x in init) && (forall x :: x in init ==> init[x].score != Blocked)
    requires NoRedSelfEdge(init, edges) && IsRed(init, red)
    ensures IsRed(Propagated(init, edges, order), left)
  {
    var t := Propagated(init, edges, order);
    left := red;
    if t[red].score == Blocked {
      var chain := BlameEndsRed(init, edges, order, red);
      left := chain[|chain| - 1];
    } else {
      NothingHappened(edges, init);
      var log := RunIsEvents(edges, init, [], init, order);
      TouchedOrNot(edges, init, log, t, red);
    }
  }

  /** A RED component that depends on itself blocks itself, and no RED is left. */
  lemma SelfEdgeErasesRed(kind: EdgeKind)
    ensures var init, edges := map["a" := Component(Red, None, [Gap(MissingBackup, Red)])], [Edge("a", "a", kind)];
      Propagated(init, edges, ["a"]) == map["a" := Component(Blocked, Some("a"), [Gap(MissingBackup, Red)])]
  {
    var a := Component(Red, None, [Gap(MissingBackup, Red)]);
    var init, edges := map["a" := a], [Edge("a", "a", kind)];
    var after := map["a" := a.(score := Blocked, blockedBy := Some("a"))];
    assert edges[..0] == [] && Prereqs(edges, "a") == ["a"];
    assert SweepTo(init, edges, ["a"], 0) == init && SweepTo(after, edges, ["a"], 0) == after;
    assert Visit(init, edges, "a") == after && Visit(after, edges, "a") == after;
    assert SweepTo(init, edges, ["a"], 1) == after && SweepTo(after, edges, ["a"], 1) == after;
    assert Propagated(after, edges, ["a"]) == after;
  }

  // ---- which components end RED ----

  lemma {:induction false} NotYetVisited(t: Table, edges: seq<Edge>, order: seq<string>, k: nat, i: nat)
    requires Distinct(order) && k <= i < |order| && forall id :: id in order ==> id in t
    ensures SweepTo(t, edges, order, k)[order[i]] == t[order[i]]
  {
    if k > 0 {
      NotYetVisited(t, edges, order, k - 1, i);
      assert order[k - 1] != order[i];
    }
  }

  lemma {:induction false} NotVisitedAgain(t: Table, edges: seq<Edge>, order: seq<string>, k: nat, i: nat)
    requires Distinct(order) && i < k <= |order| && forall id :: id in order ==> id in t
    ensures SweepTo(t, edges, order, k)[order[i]] == SweepTo(t, edges, order, i + 1)[order[i]]
  {
    if k > i + 1 {
      NotVisitedAgain(t, edges, order, k - 1, i);
      assert order[k - 1] != order[i];
    }
  }

  /** A RED prerequisite that component i meets: still RED at the start if it comes later, at the end if it came before. */
  ghost predicate MeetsRed(before: Table, after: Table, edges: seq<Edge>, order: seq<string>, i: nat, j: nat)
    requires i < |order| && j < |order|
  {
    order[j] in Prereqs(edges, order[i]) && IsRed(if j >= i then before else after, order[j])
  }

  /** One sweep leaves exactly those RED that meet no RED prerequisite. */
  lemma OneSweep(t: Table, edges: seq<Edge>, order: seq<string>, i: nat)
    requires Distinct(order) && i < |order| && forall id :: id in t <==> id in order
    ensures var r := SweepTo(t, edges, order, |order|);
      IsRed(r, order[i]) <==> IsRed(t, order[i]) && forall j: nat :: j < |order| ==> !MeetsRed(t, r, edges, order, i, j)
  {
    var r, seen := SweepTo(t, edges, order, |order|), SweepTo(t, edges, order, i);
    NotYetVisited(t, edges, order, i, i);
    NotVisitedAgain(t, edges, order, |order|, i);
    forall j: nat | j < |order| ensures IsRed(seen, order[j]) <==> IsRed(if j >= i then t else r, order[j]) {
      if j >= i {
        NotYetVisited(t, edges, order, i, j);
      } else {
        NotVisitedAgain(t, edges, order, i, j);
        NotVisitedAgain(t, edges, order, |order|, j);
      }
    }
    VisitLeavesRed(seen, edges, order, i);
    assert IsRed(r, order[i]) <==> IsRed(Visit(seen, edges, order[i]), order[i]);
    if j: nat :| j < |order| && MeetsRed(t, r, edges, order, i, j) {
      assert order[j] in Prereqs(edges, order[i]) && IsRed(seen, order[j]);
    }
    if j: nat :| j < |order| && order[j] in Prereqs(edges, order[i]) && IsRed(seen, order[j]) {
      assert MeetsRed(t, r, edges, order, i, j);
    }
  }

  lemma VisitLeavesRed(t: Table, edges: seq<Edge>, order: seq<string>, i: nat)
    requires i < |order| && forall id :: id in t <==> id in order
    ensures IsRed(Visit(t, edges, order[i]), order[i])
       <==> IsRed(t, order[i]) && !exists j: nat :: j < |order| && order[j] in Prereqs(edges, order[i]) && IsRed(t, order[j])
  {
    var red := FirstRed(t, Prereqs(edges, order[i]));
    if red.Some? {
      var j :| 0 <= j < |order| && order[j] == red.value;
    }
  }

  /** No RED component has a RED prerequisite. */
  ghost predicate Quiet(t: Table, edges: seq<Edge>) {
    forall id, p :: IsRed(t, id) && p in Prereqs(edges, id) ==> !IsRed(t, p)
  }

  lemma {:induction false} QuietSweep(t: Table, edges: seq<Edge>, order: seq<string>, k: nat)
    requires k <= |order| && (forall id :: id in order ==> id in t) && Quiet(t, edges)
    ensures forall id :: IsRed(SweepTo(t, edges, order, k), id) <==> IsRed(t, id)
  {
    if k > 0 {
      QuietSweep(t, edges, order, k - 1);
      var before := SweepTo(t, edges, order, k - 1);
      if IsRed(before, order[k - 1]) { assert FirstRed(before, Prereqs(edges, order[k - 1])).None?; }
    }
  }

  lemma {:induction false} QuietRun(t: Table, edges: seq<Edge>, order: seq<string>)
    requires (forall id :: id in order ==> id in t) && Quiet(t, edges)
    ensures forall id :: IsRed(Propagated(t, edges, order), id) <==> IsRed(t, id)
    decreases OpenOnes(t)
  {
    var next := SweepTo(t, edges, order, |order|);
    SweepShrinks(t, edges, order, |order|);
    QuietSweep(t, edges, order, |order|);
    if next != t { QuietRun(next, edges, order); }
  }

  lemma SweepQuiets(t: Table, edges: seq<Edge>, order: seq<string>)
    requires Distinct(order) && forall id :: id in t <==> id in order
    ensures Quiet(SweepTo(t, edges, order, |order|), edges)
  {
    var r := SweepTo(t, edges, order, |order|);
    forall id, p | IsRed(r, id) && p in Prereqs(edges, id) ensures !IsRed(r, p) {
      if p in order {
        var i, j :| 0 <= i < |order| && 0 <= j < |order| && order[i] == id && order[j] == p;
        OneSweep(t, edges, order, i);
        OneSweep(t, edges, order, j);
        assert !MeetsRed(t, r, edges, order, i, j);
      }
    }
  }

  /** The first sweep decides which components end RED: those that meet no RED prerequisite in it. */
  lemma EndsRedIff(t: Table, edges: seq<Edge>, order: seq<string>, i: nat)
    requires Distinct(order) && i < |order| && forall id :: id in t <==> id in order
    ensures var end := Propagated(t, edges, order);
      IsRed(end, order[i]) <==> IsRed(t, order[i]) && forall j: nat :: j < |order| ==> !MeetsRed(t, end, edges, order, i, j)
  {
    var r, end := SweepTo(t, edges, order, |order|), Propagated(t, edges, order);
    SweepQuiets(t, edges, order);
    QuietRun(r, edges, order);
    assert forall id :: IsRed(end, id) <==> IsRed(r, id);
    OneSweep(t, edges, order, i);
    forall j: nat | j < |order| ensures MeetsRed(t, r, edges, order, i, j) <==> MeetsRed(t, end, edges, order, i, j) {}
  }

  /** Component i is RED and depends on no RED one that is visited with it or after it. */
  ghost predicate Spared(t: Table, edges: seq<Edge>, order: seq<string>, i: nat)
    requires i < |order|
  {
    && IsRed(t, order[i])
    && forall j :: i <= j < |order| && IsRed(t, order[j]) ==> order[j] !in Prereqs(edges, order[i])
  }

  /** A RED component is left exactly if one is spared to begin with. */
  lemma RedIsLeftIff(t: Table, edges: seq<Edge>, order: seq<string>)
    requires Distinct(order) && forall id :: id in t <==> id in order
    ensures (exists x :: IsRed(Propagated(t, edges, order), x)) <==> exists i: nat :: i < |order| && Spared(t, edges, order, i)
  {
    var end := Propagated(t, edges, order);
    if x :| IsRed(end, x) {
      var i: nat :| i < |order| && order[i] == x;
      EndsRedIff(t, edges, order, i);
      forall j | i <= j < |order| && IsRed(t, order[j]) ensures order[j] !in Prereqs(edges, order[i]) {
        assert !MeetsRed(t, end, edges, order, i, j);
      }
      assert Spared(t, edges, order, i);
    }
    if i: nat :| i < |order| && Spared(t, edges, order, i) {
      EndsRedIff(t, edges, order, i);
      if !IsRed(end, order[i]) {
        var j: nat :| j < |order| && MeetsRed(t, end, edges, order, i, j);
        assert j < i && IsRed(end, order[j]);
      }
    }
  }

  // ---- the overall score ----

  function FinalScores(t: Table, order: seq<string>): (r: seq<Score>)
    requires forall id :: id in order ==> id in t
    ensures |r| == |order| && forall i :: 0 <= i < |order| ==> r[i] == t[order[i]].score
  {
    if order == [] then []
    else
      assert order[|order| - 1] in order;
      FinalScores(t, order[..|order| - 1]) + [t[order[|order| - 1]].score]
  }

  function AllGaps(t: Table, order: seq<string>): seq<Gap>
    requires forall id :: id in order ==> id in t
  {
    if order == [] then []
    else
      assert order[|order| - 1] in order;
      AllGaps(t, order[..|order| - 1]) + t[order[|order| - 1]].gaps
  }

  function Overall(t: Table, order: seq<string>, registry: seq<Gap>): Score
    requires forall id :: id in order ==> id in t
  {
    Join(FinalScores(t, order) + Severities(registry))
  }

  /** Each component is scored by the join of its own gaps. */
  ghost predicate ScoredByGaps(t: Table) {
    forall id :: id in t ==> t[id].score == GapJoin(t[id].gaps)
  }

  lemma {:induction false} ScoresJoinGaps(t: Table, order: seq<string>)
    requires (forall id :: id in order ==> id in t) && ScoredByGaps(t)
    ensures Join(FinalScores(t, order)) == GapJoin(AllGaps(t, order))
  {
    if order != [] {
      var init, last := order[..|order| - 1], order[|order| - 1];
      assert last in order;
      ScoresJoinGaps(t, init);
      GapJoinAppend(AllGaps(t, init), t[last].gaps);
      assert FinalScores(t, order)[..|init|] == FinalScores(t, init);
    }
  }

  lemma JoinIsRed(scores: seq<Score>)
    ensures Join(scores) == Red <==> Red in scores
  {
    JoinIsLeastUpper(scores);
  }

  /** The input lets no RED get lost: none is there, one is spared, or the registry has one. */
  ghost predicate KeepsRed(init: Table, edges: seq<Edge>, order: seq<string>, registry: seq<Gap>) {
    || (forall x :: !IsRed(init, x))
    || (exists i: nat :: i < |order| && Spared(init, edges, order, i))
    || Red in Severities(registry)
  }

  lemma OverallSeesRed(init: Table, edges: seq<Edge>, order: seq<string>, registry: seq<Gap>)
    requires (forall x :: x in init <==> x in order) && ScoredByGaps(init)
    requires forall x :: x in init ==> init[x].score != Blocked
    ensures var t := Propagated(init, edges, order);
      Overall(t, order, registry) == GapJoin(AllGaps(init, order) + registry)
      <==> ((exists x :: IsRed(init, x)) ==> (exists x :: IsRed(t, x)) || Red in Severities(registry))
  {
    var t := Propagated(init, edges, order);
    OverallOfInitial(init, order, registry);
    if exists x :: IsRed(init, x) {
      SeesRed(init, order, registry);
      SeesRed(t, order, registry);
      JoinIsRed(FinalScores(init, order) + Severities(registry));
      JoinIsRed(FinalScores(t, order) + Severities(registry));
    } else {
      NothingToPropagate(init, edges, order);
    }
  }

  /** The overall score is the join of all gap severities exactly for the inputs that let no RED get lost. */
  lemma OverallIsJoinIff(init: Table, edges: seq<Edge>, order: seq<string>, registry: seq<Gap>)
    requires Distinct(order) && (forall x :: x in init <==> x in order) && ScoredByGaps(init)
    requires forall x :: x in init ==> init[x].score != Blocked
    ensures Overall(Propagated(init, edges, order), order, registry) == GapJoin(AllGaps(init, order) + registry)
       <==> KeepsRed(init, edges, order, registry)
  {
    OverallSeesRed(init, edges, order, registry);
    RedIsLeftIff(init, edges, order);
  }

  lemma OverallOfInitial(t: Table, order: seq<string>, registry: seq<Gap>)
    requires (forall id :: id in order ==> id in t) && ScoredByGaps(t)
    ensures Overall(t, order, registry) == GapJoin(AllGaps(t, order) + registry)
  {
    ScoresJoinGaps(t, order);
    JoinAppend(FinalScores(t, order), Severities(registry));
    GapJoinAppend(AllGaps(t, order), registry);
  }

  lemma SeesRed(t: Table, order: seq<string>, registry: seq<Gap>)
    requires forall x :: x in t <==> x in order
    ensures Red in FinalScores(t, order) + Severities(registry) <==> (exists x :: IsRed(t, x)) || Red in Severities(registry)
  {
    if x :| IsRed(t, x) {
      var i :| 0 <= i < |order| && order[i] == x;
      assert FinalScores(t, order)[i] == Red;
    }
    if Red in FinalScores(t, order) {
      var i :| 0 <= i < |order| && FinalScores(t, order)[i] == Red;
      assert order[i] in order && IsRed(t, order[i]);
    }
  }

  lemma NothingToPropagate(init: Table, edges: seq<Edge>, order: seq<string>)
    requires (forall x :: x in order ==> x in init) && !exists x :: IsRed(init, x)
    ensures Propagated(init, edges, order) == init
  {
    NothingHappened(edges, init);
    var log := RunIsEvents(edges, init, [], init, order);
    assert log == [] || Justified(edges, init, log, 0);
    forall x | x in init ensures Propagated(init, edges, order)[x] == init[x] { assert Untouched(log, x); }
  }

  /** Without a self-edge on a RED component, propagation never changes the overall join. */
  lemma OverallIsJoin(init: Table, edges: seq<Edge>, order: seq<string>, registry: seq<Gap>)
    requires (forall x :: x in init <==> x in order) && ScoredByGaps(init) && NoRedSelfEdge(init, edges)
    requires forall x :: x in init ==> init[x].score != Blocked
    ensures Overall(Propagated(init, edges, order), order, registry) == GapJoin(AllGaps(init, order) + registry)
  {
    OverallSeesRed(init, edges, order, registry);
    if red :| IsRed(init, red) {
      var left := RedRemains(init, edges, order, red);
    }
  }

  // ---- the scorer ----

  /** What is known about a node before scoring. */
  datatype NodeFacts = NodeFacts(id: string, nodeType: NodeType, job: Option<Job>, offsite: bool)

  function Scored(n: NodeFacts, hasInventory: bool): Component {
    var gaps := ComponentGaps(n.nodeType, hasInventory, n.job, n.offsite, true);
    Component(GapJoin(gaps), None, gaps)
  }

  /** Of nodes with one id the last is kept. */
  function Initial(nodes: seq<NodeFacts>, hasInventory: bool): Table {
    if nodes == [] then map[]
    else
      var last := nodes[|nodes| - 1];
      Initial(nodes[..|nodes| - 1], hasInventory)[last.id := Scored(last, hasInventory)]
  }

  /** Dictionary order: by first appearance. */
  function Order(nodes: seq<NodeFacts>): (r: seq<string>)
    ensures Distinct(r)
  {
    if nodes == [] then []
    else
      var before, id := Order(nodes[..|nodes| - 1]), nodes[|nodes| - 1].id;
      if id in before then before else before + [id]
  }

  lemma {:induction false} InitialIsScored(nodes: seq<NodeFacts>, hasInventory: bool)
    ensures var t := Initial(nodes, hasInventory);
      && (forall id :: id in t <==> id in Order(nodes)) && ScoredByGaps(t) && forall id :: id in t ==> t[id].score != Blocked
  {
    if nodes != [] {
      var last := nodes[|nodes| - 1];
      InitialIsScored(nodes[..|nodes| - 1], hasInventory);
      RedIff(last.nodeType, hasInventory, last.job, last.offsite, true);
    }
  }

  class ReadinessScorer {
    var order: seq<string>
    var components: Table

    constructor ()
      ensures order == [] && components == map[]
    {
      order, components := [], map[];
    }

    method ScoreNodes(nodes: seq<NodeFacts>, hasInventory: bool)
      requires order == [] && components == map[]
      modifies this
      ensures order == Order(nodes) && components == Initial(nodes, hasInventory)
    {
      for i := 0 to |nodes|
        invariant order == Order(nodes[..i]) && components == Initial(nodes[..i], hasInventory)
      {
        assert nodes[..i + 1][..i] == nodes[..i];
        ScoreNode(nodes[i], hasInventory);
      }
      assert nodes[..|nodes|] == nodes;
    }

    method ScoreNode(n: NodeFacts, hasInventory: bool)
      modifies this
      ensures order == if n.id in old(order) then old(order) else old(order) + [n.id]
      ensures components == old(components)[n.id := Scored(n, hasInventory)]
    {
      var score, gaps := ScoreComponent(n.nodeType, hasInventory, n.job, n.offsite, true);
      if n.id !in order { order := order + [n.id]; }
      components := components[n.id := Component(score, None, gaps)];
    }

    method FindRed(prereqs: seq<string>) returns (red: Option<string>)
      ensures red == FirstRed(components, prereqs)
    {
      for i := 0 to |prereqs|
        invariant FirstRed(components, prereqs) == FirstRed(components, prereqs[i..])
      {
        assert prereqs[i..][0] == prereqs[i] && prereqs[i..][1..] == prereqs[i + 1..];
        if IsRed(components, prereqs[i]) { return Some(prereqs[i]); }
      }
      red := None;
    }

    /** One pass of the loop over the dictionary. */
    method Sweep(edges: seq<Edge>) returns (changed: bool)
      requires forall id :: id in order ==> id in components
      modifies this`components
      ensures components == SweepTo(old(components), edges, order, |order|)
      ensures changed <==> components != old(components)
    {
      changed := false;
      for i := 0 to |order|
        invariant components == SweepTo(old(components), edges, order, i)
        invariant components.Keys == old(components).Keys
        invariant changed ==> OpenOnes(components) != OpenOnes(old(components))
        invariant !changed ==> components == old(components)
      {
        var id := order[i];
        assert id in components;
        SweepShrinks(old(components), edges, order, i);
        if components[id].score != Blocked {
          var red := FindRed(Prereqs(edges, id));
          if red.Some? {
            assert id in OpenOnes(old(components));
            components := components[id := components[id].(score := Blocked, blockedBy := red)];
            assert id !in OpenOnes(components);
            changed := true;
          }
        }
      }
    }

    method Propagate(edges: seq<Edge>)
      requires forall id :: id in order ==> id in components
      modifies this`components
      ensures components == Propagated(old(components), edges, order)
    {
      var changed := true;
      while changed
        invariant components.Keys == old(components).Keys
        invariant Propagated(components, edges, order) == Propagated(old(components), edges, order)
        invariant !changed ==> SweepTo(components, edges, order, |order|) == components
        decreases OpenOnes(components), changed
      {
        SweepShrinks(components, edges, order, |order|);
        changed := Sweep(edges);
      }
    }

    method OverallScore(registry: seq<Gap>) returns (overall: Score)
      requires forall id :: id in order ==> id in components
      ensures overall == Overall(components, order, registry)
    {
      var scores := FinalScores(components, order);
      assert [] + scores == scores;
      overall := FoldWorst(Green, scores, []);
      overall := FoldWorst(overall, Severities(registry), scores);
    }
  }

  method FoldWorst(start: Score, scores: seq<Score>, ghost before: seq<Score>) returns (r: Score)
    requires start == Join(before)
    ensures r == Join(before + scores)
  {
    r := start;
    assert before + scores[..0] == before;
    for i := 0 to |scores|
      invariant r == Join(before + scores[..i])
    {
      JoinSnoc(before, scores, i);
      r := Worst(r, scores[i]);
    }
    assert scores[..|scores|] == scores;
  }

  lemma JoinSnoc(before: seq<Score>, scores: seq<Score>, i: nat)
    requires i < |scores|
    ensures Join(before + scores[..i + 1]) == Worst(Join(before + scores[..i]), scores[i])
  {
    var all := before + scores[..i + 1];
    assert all[..|all| - 1] == before + scores[..i];
  }

  /** The report of a whole graph: its overall score is the join of every gap found. */
  method ScoreGraph(nodes: seq<NodeFacts>, edges: seq<Edge>, hasInventory: bool, registry: seq<Gap>)
    returns (order: seq<string>, components: Table, overall: Score)
    ensures order == Order(nodes) && (forall id :: id in components <==> id in order)
    ensures forall id :: id in order ==> id in Initial(nodes, hasInventory)
    ensures components == Propagated(Initial(nodes, hasInventory), edges, order) && Settled(components, edges)
    ensures overall == Overall(components, order, registry)
    ensures overall == GapJoin(AllGaps(Initial(nodes, hasInventory), order) + registry)
       <==> KeepsRed(Initial(nodes, hasInventory), edges, order, registry)
    ensures NoRedSelfEdge(Initial(nodes, hasInventory), edges) ==> KeepsRed(Initial(nodes, hasInventory), edges, order, registry)
  {
    var s := new ReadinessScorer();
    s.ScoreNodes(nodes, hasInventory);
    ghost var init := s.components;
    InitialIsScored(nodes, hasInventory);
    s.Propagate(edges);
    order, components := s.order, s.components;
    overall := s.OverallScore(registry);
    RunSettles(init, edges, order);
    OverallIsJoinIff(init, edges, order, registry);
    if NoRedSelfEdge(init, edges) { OverallIsJoin(init, edges, order, registry); }
  }
}
