// HistoryDB: full snapshots per host, next to a log of the changes against the host's previous snapshot.

module History {
  import opened Sorting
  import opened Text
  import opened JsonValues
  import opened Options
  import opened Diffs
  import opened Changes
  import opened DiffMembers
  import opened Replays

  datatype AssessmentRow = AssessmentRow(id: nat, hostname: string, timestamp: string, storedAt: string,
                                         schemaVer: string, data: Json)

  datatype ChangeRow = ChangeRow(assessmentId: nat, prevId: nat, change: RowChange, storedAt: string)

  datatype StoreResult = Stored(id: nat) | Rejected

  const INT64_LIMIT := 0x8000_0000_0000_0000

  /** A value bound to a TEXT NOT NULL column: null, lists, dicts and integers beyond 64 bits are refused, numbers rendered. */
  function TextColumn(v: Json, realText: real -> string): Option<string> {
    match v
    case Null => None
    case Bool(b) => Some(if b then "1" else "0")
    case Int(n) => if -INT64_LIMIT <= n < INT64_LIMIT then Some(DecimalInt(n)) else None
    case Float(r) => Some(realText(r))
    case Str(s) => Some(s)
    case Arr(_) => None
    case Obj(_) => None
  }

  function Get(doc: map<string, Json>, key: string, default: string): Json {
    if key in doc then doc[key] else Str(default)
  }

  /** The row an INSERT writes, unless a column refuses its value. */
  function BoundRow(id: nat, doc: map<string, Json>, now: string, storedAt: string, realText: real -> string): Option<AssessmentRow> {
    var host := TextColumn(Get(doc, "hostname", "unknown"), realText);
    var time := TextColumn(Get(doc, "timestamp", now), realText);
    var ver := TextColumn(Get(doc, "schema_version", "unknown"), realText);
    if host.Some? && time.Some? && ver.Some? then
      Some(AssessmentRow(id, host.value, time.value, storedAt, ver.value, Obj(doc)))
    else None
  }

  /** What a text column holds for a field of the document: the field's text, or the default if the key is absent. */
  predicate ColumnIs(doc: map<string, Json>, key: string, default: string, realText: real -> string, text: string) {
    if key !in doc then text == default
    else match doc[key]
      case Str(s) => text == s
      case Int(n) => text == DecimalInt(n)
      case Bool(b) => text == if b then "1" else "0"
      case Float(r) => text == realText(r)
      case _ => false
  }

  /** Null, a list, a dict or an integer beyond 64 bits cannot be bound. */
  predicate Refused(doc: map<string, Json>, key: string) {
    key in doc && match doc[key]
      case Null => true
      case Arr(_) => true
      case Obj(_) => true
      case Int(n) => n < -0x8000_0000_0000_0000 || n >= 0x8000_0000_0000_0000
      case _ => false
  }

  /** The row of a document. */
  predicate IsRowOf(row: AssessmentRow, id: nat, doc: map<string, Json>, now: string, storedAt: string, realText: real -> string) {
    && row.id == id && row.storedAt == storedAt && row.data == Obj(doc)
    && ColumnIs(doc, "hostname", "unknown", realText, row.hostname)
    && ColumnIs(doc, "timestamp", now, realText, row.timestamp)
    && ColumnIs(doc, "schema_version", "unknown", realText, row.schemaVer)
  }

  lemma ColumnOf(doc: map<string, Json>, key: string, default: string, realText: real -> string)
    ensures var text := TextColumn(Get(doc, key, default), realText);
      (text.None? <==> Refused(doc, key)) && (text.Some? ==> ColumnIs(doc, key, default, realText, text.value))
  {
  }

  lemma BoundRowIs(id: nat, doc: map<string, Json>, now: string, storedAt: string, realText: real -> string)
    ensures var row := BoundRow(id, doc, now, storedAt, realText);
      && (row.None? <==> Refused(doc, "hostname") || Refused(doc, "timestamp") || Refused(doc, "schema_version"))
      && (row.Some? ==> IsRowOf(row.value, id, doc, now, storedAt, realText))
  {
    ColumnOf(doc, "hostname", "unknown", realText);
    ColumnOf(doc, "timestamp", now, realText);
    ColumnOf(doc, "schema_version", "unknown", realText);
  }

  /** The index of the latest row before `n` for this host. */
  function Previous(rows: seq<AssessmentRow>, n: nat, hostname: string): (r: Option<nat>)
    requires n <= |rows|
    ensures r.Some? ==> r.value < n
  {
    if n == 0 then None
    else if rows[n - 1].hostname == hostname then Some(n - 1)
    else Previous(rows, n - 1, hostname)
  }

  lemma {:induction false} PreviousIsLatest(rows: seq<AssessmentRow>, n: nat, hostname: string)
    requires n <= |rows|
    ensures var r := Previous(rows, n, hostname);
      match r
      case None => forall j :: 0 <= j < n ==> rows[j].hostname != hostname
      case Some(p) => rows[p].hostname == hostname && forall j :: p < j < n ==> rows[j].hostname != hostname
  {
    if n > 0 { PreviousIsLatest(rows, n - 1, hostname); }
  }

  function Stamp(changes: seq<RowChange>, id: nat, prevId: nat, storedAt: string): seq<ChangeRow> {
    if changes == [] then [] else [ChangeRow(id, prevId, changes[0], storedAt)] + Stamp(changes[1..], id, prevId, storedAt)
  }

  lemma {:induction false} StampIs(changes: seq<RowChange>, id: nat, prevId: nat, storedAt: string)
    ensures |Stamp(changes, id, prevId, storedAt)| == |changes|
    ensures forall i :: 0 <= i < |changes| ==> Stamp(changes, id, prevId, storedAt)[i] == ChangeRow(id, prevId, changes[i], storedAt)
  {
    if changes != [] { StampIs(changes[1..], id, prevId, storedAt); }
  }

  /** The latest of these rows for a host. */
  ghost predicate IsLatest(rows: seq<AssessmentRow>, hostname: string, p: nat) {
    p < |rows| && rows[p].hostname == hostname && forall j :: p < j < |rows| ==> rows[j].hostname != hostname
  }

  ghost predicate Unfold(u: bool) { true }

  /** The log entries of document `data`, stored as row `id`, against row `p`. */
  ghost predicate LogsExactly(rows: seq<AssessmentRow>, p: nat, id: nat, data: Json, storedAt: string, logged: seq<ChangeRow>)
    requires p < |rows|
  {
    var cs := Rows([], Diff(rows[p].data, data, {"timestamp", "stored_at", "schema_version"}));
    |logged| == |cs| && forall i :: 0 <= i < |cs| ==> logged[i] == ChangeRow(id, p + 1, cs[i], storedAt)
  }

  /** LogsExactly behind a trigger of its own, like the other two below. */
  ghost predicate LogsAgainst(rows: seq<AssessmentRow>, p: nat, id: nat, data: Json, storedAt: string, logged: seq<ChangeRow>)
    requires p < |rows|
  {
    forall u {:trigger Unfold(u)} :: Unfold(u) ==> LogsExactly(rows, p, id, data, storedAt, logged)
  }

  /** The first snapshot of a host logs nothing; a later one logs its difference to the host's latest. */
  ghost predicate LogsAgainstLatest(rows: seq<AssessmentRow>, hostname: string, id: nat, data: Json, storedAt: string, logged: seq<ChangeRow>) {
    && ((forall row :: row in rows ==> row.hostname != hostname) ==> logged == [])
    && forall p :: IsLatest(rows, hostname, p) ==> LogsAgainst(rows, p, id, data, storedAt, logged)
  }

  /** The entries logged for a row that joins these rows. */
  ghost predicate EntryFor(rows: seq<AssessmentRow>, row: AssessmentRow, logged: seq<ChangeRow>) {
    forall u {:trigger Unfold(u)} :: Unfold(u) ==> logged == LogEntry(Between, PreviousRow(rows + [row], |rows|), row)
  }

  /** The change table is the log of these rows. */
  ghost predicate LogIs(rows: seq<AssessmentRow>, changes: seq<ChangeRow>) {
    forall u {:trigger Unfold(u)} :: Unfold(u) ==> changes == LoggedUpTo(Between, rows, |rows|)
  }

  lemma LogGrows(rows: seq<AssessmentRow>, row: AssessmentRow, changes: seq<ChangeRow>, logged: seq<ChangeRow>)
    requires LogIs(rows, changes) && EntryFor(rows, row, logged)
    ensures LogIs(rows + [row], changes + logged)
  {
    assert Unfold(true);
    LoggedGrows(Between, rows, row);
  }

  lemma LatestBefore(rows: seq<AssessmentRow>, row: AssessmentRow)
    ensures match Previous(rows + [row], |rows|, row.hostname)
      case None => forall r :: r in rows ==> r.hostname != row.hostname
      case Some(p) => forall q :: IsLatest(rows, row.hostname, q) <==> q == p
  {
    PreviousPrefix(rows, row, |rows|, row.hostname);
    PreviousIsLatest(rows, |rows|, row.hostname);
  }

  lemma EntryAgainst(delta: Delta, before: AssessmentRow, row: AssessmentRow)
    ensures var logged, cs := LogEntry(delta, Some(before), row), delta(before, row);
      |logged| == |cs| && forall i :: 0 <= i < |cs| ==> logged[i] == ChangeRow(row.id, before.id, cs[i], row.storedAt)
  {
    StampIs(delta(before, row), row.id, before.id, row.storedAt);
  }

  lemma SkippedByDb()
    ensures DB_SKIP == {"timestamp", "stored_at", "schema_version"}
  {
  }

  lemma EntryLogs(rows: seq<AssessmentRow>, p: nat, row: AssessmentRow)
    requires p < |rows| && rows[p].id == p + 1
    ensures LogsAgainst(rows, p, row.id, row.data, row.storedAt, LogEntry(Between, Some(rows[p]), row))
  {
    SkippedByDb();
    EntryAgainst(Between, rows[p], row);
    assert LogsExactly(rows, p, row.id, row.data, row.storedAt, LogEntry(Between, Some(rows[p]), row));
  }

  lemma EntryIs(rows: seq<AssessmentRow>, row: AssessmentRow, logged: seq<ChangeRow>)
    requires (forall i :: 0 <= i < |rows| ==> rows[i].id == i + 1) && EntryFor(rows, row, logged)
    ensures LogsAgainstLatest(rows, row.hostname, row.id, row.data, row.storedAt, logged)
  {
    assert Unfold(true);
    LatestBefore(rows, row);
    var prev := Previous(rows + [row], |rows|, row.hostname);
    assert (rows + [row])[|rows|] == row;
    if prev.Some? {
      assert (rows + [row])[prev.value] == rows[prev.value];
      assert IsLatest(rows, row.hostname, prev.value) && rows[prev.value] in rows;
      EntryLogs(rows, prev.value, row);
    }
  }

  type Delta = (AssessmentRow, AssessmentRow) -> seq<RowChange>

  /** The recorded difference of two snapshots. */
  ghost function Between(before: AssessmentRow, after: AssessmentRow): seq<RowChange> {
    Rows([], Diff(before.data, after.data, DB_SKIP))
  }

  ghost function LogEntry(delta: Delta, before: Option<AssessmentRow>, after: AssessmentRow): seq<ChangeRow> {
    if before.None? then [] else Stamp(delta(before.value, after), after.id, before.value.id, after.storedAt)
  }

  function PreviousRow(rows: seq<AssessmentRow>, n: nat): Option<AssessmentRow>
    requires n < |rows|
  {
    var p := Previous(rows, n, rows[n].hostname);
    if p.None? then None else Some(rows[p.value])
  }

  /** What storing row `n` must have logged: the diff against the host's previous row. */
  ghost function Logged(delta: Delta, rows: seq<AssessmentRow>, n: nat): seq<ChangeRow>
    requires n < |rows|
  {
    LogEntry(delta, PreviousRow(rows, n), rows[n])
  }

  ghost function LoggedUpTo(delta: Delta, rows: seq<AssessmentRow>, n: nat): seq<ChangeRow>
    requires n <= |rows|
  {
    if n == 0 then [] else LoggedUpTo(delta, rows, n - 1) + Logged(delta, rows, n - 1)
  }

  lemma {:induction false} PreviousPrefix(rows: seq<AssessmentRow>, row: AssessmentRow, n: nat, hostname: string)
    requires n <= |rows|
    ensures Previous(rows + [row], n, hostname) == Previous(rows, n, hostname)
  {
    if n > 0 { PreviousPrefix(rows, row, n - 1, hostname); }
  }

  lemma PreviousRowPrefix(rows: seq<AssessmentRow>, row: AssessmentRow, n: nat)
    requires n < |rows|
    ensures PreviousRow(rows + [row], n) == PreviousRow(rows, n)
  {
    PreviousPrefix(rows, row, n, rows[n].hostname);
  }

  lemma {:induction false} LoggedPrefix(delta: Delta, rows: seq<AssessmentRow>, row: AssessmentRow, n: nat)
    requires n <= |rows|
    ensures LoggedUpTo(delta, rows + [row], n) == LoggedUpTo(delta, rows, n)
  {
    if n > 0 {
      LoggedPrefix(delta, rows, row, n - 1);
      PreviousRowPrefix(rows, row, n - 1);
      assert Logged(delta, rows + [row], n - 1) == Logged(delta, rows, n - 1);
    }
  }

  /** The log grows by the entry of the new row. */
  lemma LoggedGrows(delta: Delta, rows: seq<AssessmentRow>, row: AssessmentRow)
    ensures LoggedUpTo(delta, rows + [row], |rows| + 1) == LoggedUpTo(delta, rows, |rows|) + LogEntry(delta, PreviousRow(rows + [row], |rows|), row)
    ensures Previous(rows + [row], |rows|, row.hostname) == Previous(rows, |rows|, row.hostname)
  {
    LoggedPrefix(delta, rows, row, |rows|);
    PreviousPrefix(rows, row, |rows|, row.hostname);
  }

  class HistoryDB {
    const realText: real -> string
    var assessments: seq<AssessmentRow>
    var changes: seq<ChangeRow>

    /** Row ids count up from 1 and the change table is exactly the log of the snapshots. */
    ghost predicate Valid()
      reads this
    {
      && (forall i :: 0 <= i < |assessments| ==> assessments[i].id == i + 1 && assessments[i].data.Obj?)
      && LogIs(assessments, changes)
    }

    constructor (realText: real -> string)
      ensures Valid() && assessments == [] && changes == []
    {
      this.realText := realText;
      assessments, changes := [], [];
    }

    /** `now` is the clock reading used when the document has no timestamp. */
    method Store(doc: map<string, Json>, now: string, storedAt: string) returns (r: StoreResult)
      requires Valid()
      modifies this`assessments, this`changes
      ensures Valid()
      ensures r.Rejected? <==> Refused(doc, "hostname") || Refused(doc, "timestamp") || Refused(doc, "schema_version")
      ensures r.Rejected? ==> assessments == old(assessments) && changes == old(changes)
      ensures r.Stored? ==> r.id == |old(assessments)| + 1 && exists row, logged ::
        && assessments == old(assessments) + [row] && changes == old(changes) + logged
        && IsRowOf(row, r.id, doc, now, storedAt, realText)
        && LogsAgainstLatest(old(assessments), row.hostname, r.id, Obj(doc), storedAt, logged)
    {
      var bound := BoundRow(|assessments| + 1, doc, now, storedAt, realText);
      BoundRowIs(|assessments| + 1, doc, now, storedAt, realText);
      if bound.None? { return Rejected; }
      r := Stored(bound.value.id);
      ghost var rows := assessments;
      var logged := Insert(bound.value);
      EntryIs(rows, bound.value, logged);
    }

    /** The row and its change rows, in two transactions. */
    method Insert(row: AssessmentRow) returns (logged: seq<ChangeRow>)
      requires Valid() && row.id == |assessments| + 1 && row.data.Obj?
      modifies this`assessments, this`changes
      ensures Valid() && assessments == old(assessments) + [row] && changes == old(changes) + logged
      ensures EntryFor(old(assessments), row, logged)
    {
      ghost var rows := assessments;
      assessments := assessments + [row];
      logged := CompareWithPrevious(rows, row);
      LogGrows(rows, row, changes, logged);
      changes := changes + logged;
    }

    /** The change rows for the row just inserted. */
    method CompareWithPrevious(ghost rows: seq<AssessmentRow>, row: AssessmentRow) returns (logged: seq<ChangeRow>)
      requires assessments == rows + [row]
      ensures EntryFor(rows, row, logged)
    {
      logged := [];
      var prev := Previous(assessments, |assessments| - 1, row.hostname);
      if prev.Some? {
        var before := assessments[prev.value];
        var results := ComputeChanges(before.data, row.data);
        logged := Stamp(results, row.id, before.id, row.storedAt);
      }
    }

    method Fetch(rowId: int) returns (r: Option<Json>)
      requires Valid()
      ensures r == if 1 <= rowId <= |assessments| then Some(assessments[rowId - 1].data) else None
    {
      r := None;
      for i := 0 to |assessments|
        invariant r == if 1 <= rowId <= i then Some(assessments[rowId - 1].data) else None
      {
        if assessments[i].id == rowId { r := Some(assessments[i].data); }
      }
    }

    /** The diff of a row against its host's previous one, decoded and in path order; nothing for an unknown row. */
    method ChangesFor(rowId: int) returns (r: seq<ChangeView>)
      requires Valid()
      ensures multiset(r) == multiset(MapSeq(View, OwnChangesOf(Between, assessments, rowId)))
      ensures forall i, j :: 0 <= i < j < |r| ==> StrLe(r[i].path, r[j].path)
    {
      assert Unfold(true);
      var rows := InPathOrder(ChangesOf(changes, rowId));
      LogOfRow(Between, assessments, rowId);
      MapPermutation(View, rows, ChangesOf(changes, rowId));
      ViewsKeepPaths(rows);
      r := MapSeq(View, rows);
    }
  }

  /** A log entry that records one difference of the documents `a` and `b`, stored as rows `prevId` and `id`. */
  ghost predicate IsDifference(a: Json, b: Json, prevId: nat, id: nat, storedAt: string, c: ChangeRow) {
    && c.assessmentId == id && c.prevId == prevId && c.storedAt == storedAt
    && exists keys :: IsRow(a, b, {"timestamp", "stored_at", "schema_version"}, keys, c.change)
  }

  /** The log entries against row `p` are exactly the differences of the two documents. */
  lemma LoggedRows(rows: seq<AssessmentRow>, p: nat, id: nat, data: Json, storedAt: string, logged: seq<ChangeRow>, c: ChangeRow)
    requires p < |rows| && LogsAgainst(rows, p, id, data, storedAt, logged)
    ensures c in logged <==> IsDifference(rows[p].data, data, p + 1, id, storedAt, c)
  {
    SkippedByDb();
    assert Unfold(true);
    var cs := Rows([], Diff(rows[p].data, data, DB_SKIP));
    RowsAre(rows[p].data, data, c.change);
    if c in logged {
      var i :| 0 <= i < |logged| && logged[i] == c;
      assert cs[i] in cs;
    }
    if c.change in cs {
      var i :| 0 <= i < |cs| && cs[i] == c.change;
      assert logged[i] in logged;
    }
  }

  /** Two documents stored one after the other: documents of different hosts are not compared, and two of one host
      are logged with exactly their differences. */
  method StoreTwo(db: HistoryDB, a: map<string, Json>, b: map<string, Json>, now: string, storedAt: string)
    requires db.Valid() && db.assessments == []
    requires "hostname" in a && a["hostname"].Str? && "hostname" in b && b["hostname"].Str?
    requires !Refused(a, "timestamp") && !Refused(a, "schema_version") && !Refused(b, "timestamp") && !Refused(b, "schema_version")
    modifies db
    ensures db.Valid() && |db.assessments| == 2 && db.assessments[0].data == Obj(a) && db.assessments[1].data == Obj(b)
    ensures a["hostname"] != b["hostname"] ==> db.changes == []
    ensures a["hostname"] == b["hostname"] ==> forall c :: c in db.changes <==> IsDifference(Obj(a), Obj(b), 1, 2, storedAt, c)
  {
    assert db.changes == [] by { assert Unfold(true); }
    var first := db.Store(a, now, storedAt);
    ghost var rows := db.assessments;
    assert rows == [rows[0]] && db.changes == [];
    var second := db.Store(b, now, storedAt);
    ghost var host := db.assessments[1].hostname;
    if a["hostname"] == b["hostname"] {
      assert IsLatest(rows, host, 0);
      forall c ensures c in db.changes <==> IsDifference(Obj(a), Obj(b), 1, 2, storedAt, c) {
        LoggedRows(rows, 0, 2, Obj(b), storedAt, db.changes, c);
      }
    }
  }

  // ---- reading the log ----

  /** The changes logged for one row, in insertion order. */
  function ChangesOf(changes: seq<ChangeRow>, rowId: int): seq<RowChange> {
    if changes == [] then []
    else (if changes[0].assessmentId == rowId then [changes[0].change] else []) + ChangesOf(changes[1..], rowId)
  }

  function InPathOrder(rows: seq<RowChange>): (r: seq<RowChange>)
    ensures multiset(r) == multiset(rows)
    ensures forall i, j :: 0 <= i < j < |r| ==> StrLe(r[i].path, r[j].path)
  {
    StrLeIsOrder();
    var le := (a: RowChange, b: RowChange) => StrLe(a.path, b.path);
    assert TotalPreorder(le) by {
      assert forall a: RowChange, b: RowChange :: le(a, b) || le(b, a);
      assert forall a, b, c :: le(a, b) && le(b, c) ==> le(a, c);
    }
    var r := Sort(rows, le);
    assert forall i, j :: 0 <= i < j < |r| ==> le(r[i], r[j]);
    r
  }

  /** changes_for decodes SQL NULL and the text `null` to the same None. */
  datatype ChangeView = ChangeView(path: string, oldValue: Json, newValue: Json)

  function View(c: RowChange): ChangeView {
    ChangeView(c.path, if c.oldValue.Some? then c.oldValue.value else Null, if c.newValue.Some? then c.newValue.value else Null)
  }

  lemma {:induction false} ViewsKeepPaths(cs: seq<RowChange>)
    ensures |MapSeq(View, cs)| == |cs| && forall i :: 0 <= i < |cs| ==> MapSeq(View, cs)[i].path == cs[i].path
  {
    if cs != [] { ViewsKeepPaths(cs[1..]); }
  }

  /** A decoded change stands for exactly one logged change iff neither of its sides is None. */
  lemma DecodingLosesNulls(c: RowChange)
    ensures View(c).path == c.path
    ensures c.oldValue == Some(View(c).oldValue) || (c.oldValue.None? && View(c).oldValue == Null)
    ensures c.newValue == Some(View(c).newValue) || (c.newValue.None? && View(c).newValue == Null)
    ensures (forall d :: View(d) == View(c) ==> d == c) <==> View(c).oldValue != Null && View(c).newValue != Null
  {
    var other := RowChange(c.path,
      if View(c).oldValue != Null then c.oldValue else if c.oldValue.None? then Some(Null) else None,
      if View(c).newValue != Null then c.newValue else if c.newValue.None? then Some(Null) else None);
    assert View(other) == View(c);
  }

  lemma {:induction false} ChangesOfAppend(xs: seq<ChangeRow>, ys: seq<ChangeRow>, rowId: int)
    ensures ChangesOf(xs + ys, rowId) == ChangesOf(xs, rowId) + ChangesOf(ys, rowId)
  {
    if xs == [] { assert xs + ys == ys; }
    else {
      assert (xs + ys)[1..] == xs[1..] + ys;
      ChangesOfAppend(xs[1..], ys, rowId);
      AppendAssoc(if xs[0].assessmentId == rowId then [xs[0].change] else [], ChangesOf(xs[1..], rowId), ChangesOf(ys, rowId));
    }
  }

  lemma {:induction false} ChangesOfStamp(cs: seq<RowChange>, id: nat, prevId: nat, storedAt: string, rowId: int)
    ensures ChangesOf(Stamp(cs, id, prevId, storedAt), rowId) == if id == rowId then cs else []
  {
    if cs != [] { ChangesOfStamp(cs[1..], id, prevId, storedAt, rowId); }
  }

  ghost predicate Numbered(rows: seq<AssessmentRow>) {
    forall i :: 0 <= i < |rows| ==> rows[i].id == i + 1 && rows[i].data.Obj?
  }

  lemma ChangesOfEntry(delta: Delta, before: Option<AssessmentRow>, after: AssessmentRow, rowId: int)
    ensures ChangesOf(LogEntry(delta, before, after), rowId) ==
      if before.Some? && after.id == rowId then delta(before.value, after) else []
  {
    if before.Some? { ChangesOfStamp(delta(before.value, after), after.id, before.value.id, after.storedAt, rowId); }
  }

  /** The diff of a row against the host's previous row; nothing for a host's first row. */
  ghost function OwnChanges(delta: Delta, rows: seq<AssessmentRow>, k: nat): seq<RowChange>
    requires k < |rows|
  {
    if PreviousRow(rows, k).Some? then delta(PreviousRow(rows, k).value, rows[k]) else []
  }

  lemma ChangesOfLogged(delta: Delta, rows: seq<AssessmentRow>, j: nat, k: nat)
    requires Numbered(rows) && j < |rows| && k < |rows|
    ensures ChangesOf(Logged(delta, rows, j), k + 1) == if j == k then OwnChanges(delta, rows, k) else []
  {
    ChangesOfEntry(delta, PreviousRow(rows, j), rows[j], k + 1);
  }

  lemma LogStep(delta: Delta, rows: seq<AssessmentRow>, n: nat, k: nat)
    requires Numbered(rows) && n < |rows| && k < |rows|
    ensures ChangesOf(LoggedUpTo(delta, rows, n + 1), k + 1)
         == ChangesOf(LoggedUpTo(delta, rows, n), k + 1) + (if n == k then OwnChanges(delta, rows, k) else [])
  {
    ChangesOfAppend(LoggedUpTo(delta, rows, n), Logged(delta, rows, n), k + 1);
    ChangesOfLogged(delta, rows, n, k);
  }

  lemma EmptyEnds(xs: seq<RowChange>)
    ensures xs + [] == xs && [] + xs == xs
  {
  }

  lemma {:induction false} NothingLoggedYet(delta: Delta, rows: seq<AssessmentRow>, n: nat, k: nat)
    requires Numbered(rows) && n <= k < |rows|
    ensures ChangesOf(LoggedUpTo(delta, rows, n), k + 1) == []
  {
    if n > 0 {
      NothingLoggedYet(delta, rows, n - 1, k);
      LogStep(delta, rows, n - 1, k);
    }
  }

  /** Each row's logged changes are exactly its diff against the host's previous row, however the hosts interleave. */
  lemma {:induction false} LogIsDiff(delta: Delta, rows: seq<AssessmentRow>, n: nat, k: nat)
    requires Numbered(rows) && k < n <= |rows|
    ensures ChangesOf(LoggedUpTo(delta, rows, n), k + 1) == OwnChanges(delta, rows, k)
  {
    EmptyEnds(OwnChanges(delta, rows, k));
    LogStep(delta, rows, n - 1, k);
    if n - 1 == k { NothingLoggedYet(delta, rows, k, k); } else { LogIsDiff(delta, rows, n - 1, k); }
  }

  /** What a row id is logged with, if there is such a row. */
  ghost function OwnChangesOf(delta: Delta, rows: seq<AssessmentRow>, rowId: int): seq<RowChange> {
    if 1 <= rowId <= |rows| then OwnChanges(delta, rows, rowId - 1) else []
  }

  lemma {:induction false} NothingForOthers(delta: Delta, rows: seq<AssessmentRow>, n: nat, rowId: int)
    requires Numbered(rows) && n <= |rows| && !(1 <= rowId <= |rows|)
    ensures ChangesOf(LoggedUpTo(delta, rows, n), rowId) == []
  {
    if n > 0 {
      NothingForOthers(delta, rows, n - 1, rowId);
      ChangesOfAppend(LoggedUpTo(delta, rows, n - 1), Logged(delta, rows, n - 1), rowId);
      ChangesOfEntry(delta, PreviousRow(rows, n - 1), rows[n - 1], rowId);
    }
  }

  lemma LogOfRow(delta: Delta, rows: seq<AssessmentRow>, rowId: int)
    requires Numbered(rows)
    ensures ChangesOf(LoggedUpTo(delta, rows, |rows|), rowId) == OwnChangesOf(delta, rows, rowId)
  {
    if 1 <= rowId <= |rows| { LogIsDiff(delta, rows, |rows|, rowId - 1); } else { NothingForOthers(delta, rows, |rows|, rowId); }
  }

  // ---- rebuilding snapshots from the log ----

  /** A host's first snapshot, with the logged changes of its later rows replayed over it up to row `k`. */
  ghost function Rebuilt(rows: seq<AssessmentRow>, changes: seq<ChangeRow>, k: nat): Json
    requires k < |rows|
    decreases k
  {
    var p := Previous(rows, k, rows[k].hostname);
    if p.None? then rows[k].data
    else Replay(Rebuilt(rows, changes, p.value), ChangesOf(changes, k + 1))
  }

  /** The row differs from its host's previous one at dot-free locations only. */
  ghost predicate ChangesDotFree(rows: seq<AssessmentRow>, k: nat)
    requires k < |rows|
  {
    PreviousRow(rows, k).Some? ==> DotFreeChanges(DB_SKIP, PreviousRow(rows, k).value.data, rows[k].data)
  }

  /** Replaying a host's log over its first snapshot rebuilds every later snapshot, skipped keys aside. */
  lemma {:induction false} LogRebuildsSnapshots(rows: seq<AssessmentRow>, k: nat)
    requires Numbered(rows) && k < |rows| && forall i :: 0 <= i < |rows| ==> ChangesDotFree(rows, i)
    ensures EqUpTo(DB_SKIP, Rebuilt(rows, LoggedUpTo(Between, rows, |rows|), k), rows[k].data)
    decreases k
  {
    var p := Previous(rows, k, rows[k].hostname);
    if p.None? {
      EqUpToReflexive(DB_SKIP, rows[k].data);
    } else {
      LogRebuildsSnapshots(rows, p.value);
      assert ChangesDotFree(rows, k);
      LogIsDiff(Between, rows, |rows|, k);
      RowsRebuild(Rebuilt(rows, LoggedUpTo(Between, rows, |rows|), p.value), rows[p.value].data, rows[k].data);
    }
  }

  // ---- the path order of changes_for is as good as the insertion order ----

  function ParseRow(row: RowChange): KeyChange {
    KeyChange(Split('.', row.path), row.oldValue, row.newValue)
  }

  lemma {:induction false} ReplayIsApplyParsed(d: Json, rows: seq<RowChange>)
    ensures Replay(d, rows) == ApplyAll(d, MapSeq(ParseRow, rows))
    decreases |rows|
  {
    if rows != [] {
      ReplayIsApplyParsed(ApplyAt(d, Split('.', rows[0].path), rows[0].newValue), rows[1..]);
    }
  }

  lemma {:induction false} ParsedRows(cs: seq<KeyChange>)
    requires DotFreePaths(cs) && forall c :: c in cs ==> c.keys != []
    ensures MapSeq(ParseRow, Rows([], cs)) == cs
  {
    if cs != [] {
      assert cs[0] in cs && [] + cs[0].keys == cs[0].keys;
      SplitJoin('.', cs[0].keys);
      assert Rows([], cs)[1..] == Rows([], cs[1..]);
      ParsedRows(cs[1..]);
    }
  }

  /** The rows of one snapshot can be replayed in any order, in particular in path order. */
  lemma ReplayInAnyOrder(d: Json, a: Json, b: Json, rows: seq<RowChange>)
    requires a.Obj? && b.Obj? && DotFreeChanges(DB_SKIP, a, b)
    requires multiset(rows) == multiset(Rows([], Diff(a, b, DB_SKIP)))
    ensures Replay(d, rows) == Replay(d, Rows([], Diff(a, b, DB_SKIP)))
  {
    var cs := Diff(a, b, DB_SKIP);
    DiffDotFreeIff(a, b, DB_SKIP);
    KeysDiffKeepsRoot(a, b, SortedKeys(a.fields.Keys + b.fields.Keys), DB_SKIP);
    ParsedRows(cs);
    MapPermutation(ParseRow, rows, Rows([], cs));
    DiffNoOverlaps(a, b, DB_SKIP);
    ApplyAnyOrder(d, cs, MapSeq(ParseRow, rows));
    ReplayIsApplyParsed(d, rows);
    ReplayIsApplyParsed(d, Rows([], cs));
  }
}
