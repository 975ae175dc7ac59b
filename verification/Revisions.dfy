/**
 * The specification revisions of one task: task_revisions.py and the revision
 * part of revision_handler.py. `Revision` is a row of task_spec_revisions, whose
 * two unique indexes (models.py) appear as guards of the insertion.
 */
module Revisions {
  import opened Results
  import opened SpecMerge

  datatype Kind = Initial | Correction

  datatype Revision = Revision(
    id: nat, number: nat, base: Option<nat>, kind: Kind, active: bool, spec: Json, userCount: nat)

  /** How AOI normalization of a revision ends. */
  datatype Aoi = Usable | Blocked(missingFields: Json, reason: Json)

  const NEED_CONFIRMATION := "need_confirmation"
  const MISSING_FIELDS := "missing_fields"
  const CLARIFICATION := "clarification_message"

  predicate PatchedKey(key: string) {
    key == NEED_CONFIRMATION || key == MISSING_FIELDS || key == CLARIFICATION
  }

  /** What the mirrored task_spec gets on top of the revision's specification. */
  function Patched(spec: Json, need: string, missing: Json, reason: Json): (r: Json)
    requires spec.Dict?
    ensures r.Dict? && forall key :: !PatchedKey(key) ==> At(r, key) == At(spec, key)
  {
    Dict(spec.entries[NEED_CONFIRMATION := Leaf(need)][MISSING_FIELDS := missing][CLARIFICATION := reason])
  }

  /** A correction always rewrites the three keys; an initial revision only when it is blocked. */
  function Mirrored(row: Revision, aoi: Aoi): (r: Json)
    requires row.spec.Dict?
    ensures r.Dict? && forall key :: !PatchedKey(key) ==> At(r, key) == At(row.spec, key)
  {
    match aoi
    case Blocked(missing, reason) => Patched(row.spec, "true", missing, reason)
    case Usable =>
      if row.kind.Correction? then Patched(row.spec, "false", Leaf("[]"), Leaf("null")) else row.spec
  }

  // ---- The rows --------------------------------------------------------------------------------------

  /** get_active_revision: the active row, where there is one. */
  function ActiveOf(rows: seq<Revision>): (r: Option<Revision>)
    ensures r.Some? ==> r.value in rows && r.value.active
    ensures r.None? ==> forall i :: 0 <= i < |rows| ==> !rows[i].active
  {
    if rows == [] then None
    else if rows[|rows| - 1].active then Some(rows[|rows| - 1])
    else ActiveOf(rows[..|rows| - 1])
  }

  /** The unique indexes on the key and on (task, revision_number). */
  predicate Taken(rows: seq<Revision>, id: nat, number: nat) {
    exists i :: 0 <= i < |rows| && (rows[i].id == id || rows[i].number == number)
  }

  function CountOf(active: Option<Revision>): nat {
    if active.Some? then active.value.userCount else 0
  }

  /** activate_revision on the row at k. */
  function Activated(rows: seq<Revision>, k: nat): (r: seq<Revision>)
    requires k < |rows|
    ensures |r| == |rows|
  {
    var count := CountOf(ActiveOf(rows));
    seq(|rows|, i requires 0 <= i < |rows| =>
      if i != k then rows[i].(active := false)
      else if rows[i].kind.Correction? then rows[i].(active := true, userCount := count + 1)
      else rows[i].(active := true))
  }

  /** The table as one transaction sees it, updated in place. */
  class RevisionTable {
    var rows: seq<Revision>
    var taskSpec: Json

    constructor (rows: seq<Revision>, taskSpec: Json)
      ensures this.rows == rows && this.taskSpec == taskSpec
    {
      this.rows, this.taskSpec := rows, taskSpec;
    }

    /** create_initial_revision, create_correction_revision: insert, or fail on a unique index. */
    method Insert(row: Revision) returns (ok: bool)
      modifies this`rows
      ensures ok <==> !Taken(old(rows), row.id, row.number)
      ensures rows == if ok then old(rows) + [row] else old(rows)
    {
      ok := true;
      for i := 0 to |rows|
        invariant ok <==> forall j :: 0 <= j < i ==> rows[j].id != row.id && rows[j].number != row.number
      {
        if rows[i].id == row.id || rows[i].number == row.number {
          ok := false;
        }
      }
      if ok {
        rows := rows + [row];
      }
    }

    /** activate_revision: flip every active row, activate this one, count it, mirror its specification. */
    method Activate(k: nat)
      requires k < |rows|
      modifies this
      ensures rows == Activated(old(rows), k) && taskSpec == old(rows)[k].spec
    {
      var previous := ActiveOf(rows);
      for i := 0 to |rows|
        invariant |rows| == |old(rows)|
        invariant forall j :: 0 <= j < i ==> rows[j] == old(rows)[j].(active := false)
        invariant forall j :: i <= j < |rows| ==> rows[j] == old(rows)[j]
      {
        if rows[i].active {
          rows := rows[i := rows[i].(active := false)];
        }
      }
      var revision := rows[k].(active := true);
      if revision.kind.Correction? {
        revision := revision.(userCount := CountOf(previous) + 1);
      }
      rows := rows[k := revision];
      taskSpec := revision.spec;
    }

    /** _apply_correction_revision, on the active revision read before. */
    method ApplyCorrection(base: Revision, id: nat, override: Json, aoi: Aoi) returns (ok: bool)
      requires base.spec.Dict? && override.Dict?
      modifies this
      ensures ok <==> !Taken(old(rows), id, base.number + 1)
      ensures !ok ==> rows == old(rows) && taskSpec == old(taskSpec)
      ensures ok ==>
                && rows == Activated(old(rows) + [CorrectionRow(base, id, override)], |old(rows)|)
                && taskSpec == Mirrored(CorrectionRow(base, id, override), aoi)
                && taskSpec.Dict? && ShowsOutcome(taskSpec, aoi)
    {
      MirrorShowsOutcome(CorrectionRow(base, id, override), aoi);
      hide ShowsOutcome;
      var merged := MergeDicts(base.spec, override);
      var row := Revision(id, base.number + 1, Some(base.id), Correction, false, merged, 0);
      ok := Insert(row);
      if ok {
        Activate(|rows| - 1);
        match aoi
        case Blocked(missing, reason) => taskSpec := Patched(taskSpec, "true", missing, reason);
        case Usable => taskSpec := Patched(taskSpec, "false", Leaf("[]"), Leaf("null"));
      }
    }
  }

  /** The row a correction inserts. */
  function CorrectionRow(base: Revision, id: nat, override: Json): (r: Revision)
    requires base.spec.Dict? && override.Dict?
    ensures r.spec.Dict?
  {
    Revision(id, base.number + 1, Some(base.id), Correction, false, Merge(base.spec, override), 0)
  }

  /** The row that opens a task's chain, from the specification the task has. */
  function InitialRow(taskSpec: Json, id: nat): Revision {
    Revision(id, 1, None, Initial, false, taskSpec, 0)
  }

  // ---- Interleaved transactions ------------------------------------------------------------------------

  /** A transaction: what it has read, or the row it has inserted but not committed. */
  datatype Session = Idle | Read(base: Option<Revision>) | Pending(row: Revision, override: Json) | Refused

  /** Committed rows, the task's mirrored specification, the open transactions, the overrides committed so far. */
  datatype State = State(rows: seq<Revision>, taskSpec: Json, sessions: map<nat, Session>, applied: seq<Json>)

  datatype Step =
    | ReadActive(session: nat)
    | InsertRow(session: nat, id: nat, override: Json)
    | Commit(session: nat, aoi: Aoi)
    | RollBack(session: nat)

  function Init(taskSpec: Json): State {
    State([], taskSpec, map[], [])
  }

  function SessionOf(s: State, session: nat): Session {
    if session in s.sessions then s.sessions[session] else Idle
  }

  function NewRow(s: State, base: Option<Revision>, id: nat, override: Json): Revision
    requires s.taskSpec.Dict? && override.Dict? && (base.Some? ==> base.value.spec.Dict?)
  {
    if base.Some? then CorrectionRow(base.value, id, override) else InitialRow(s.taskSpec, id)
  }

  /** An insertion waits while another transaction has inserted a row with the same key and not ended. */
  predicate Waits(s: State, session: nat, id: nat, number: nat) {
    exists other :: other in s.sessions && other != session && s.sessions[other].Pending?
                    && (s.sessions[other].row.id == id || s.sessions[other].row.number == number)
  }

  predicate Enabled(s: State, step: Step) {
    && s.taskSpec.Dict?
    && match step
       case ReadActive(c) => !SessionOf(s, c).Pending?
       case InsertRow(c, id, override) =>
         && SessionOf(s, c).Read? && override.Dict?
         && (SessionOf(s, c).base.Some? ==> SessionOf(s, c).base.value.spec.Dict?)
         && !Waits(s, c, id, NewRow(s, SessionOf(s, c).base, id, override).number)
       case Commit(c, _) => SessionOf(s, c).Pending? && SessionOf(s, c).row.spec.Dict?
       case RollBack(_) => true
  }

  function Apply(s: State, step: Step): State
    requires Enabled(s, step)
  {
    match step
    case ReadActive(c) => s.(sessions := s.sessions[c := Read(ActiveOf(s.rows))])
    case InsertRow(c, id, override) =>
      var row := NewRow(s, SessionOf(s, c).base, id, override);
      s.(sessions := s.sessions[c := if Taken(s.rows, id, row.number) then Refused else Pending(row, override)])
    case Commit(c, aoi) =>
      var row := SessionOf(s, c).row;
      State(Activated(s.rows + [row], |s.rows|), Mirrored(row, aoi), s.sessions[c := Idle],
            if row.kind.Correction? then s.applied + [SessionOf(s, c).override] else s.applied)
    case RollBack(c) => s.(sessions := s.sessions[c := Idle])
  }

  function RunOf(taskSpec: Json, steps: seq<Step>): Option<State> {
    if steps == [] then Some(Init(taskSpec))
    else
      match RunOf(taskSpec, steps[..|steps| - 1])
      case None => None
      case Some(s) => if Enabled(s, steps[|steps| - 1]) then Some(Apply(s, steps[|steps| - 1])) else None
  }

  // ---- What every reachable state satisfies --------------------------------------------------------------

  /** Row i of a chain of n rows: number, activity, base link, count and kind. */
  predicate RowOk(rows: seq<Revision>, i: nat)
    requires i < |rows|
  {
    && rows[i].number == i + 1
    && rows[i].active == (i == |rows| - 1)
    && rows[i].base == (if i == 0 then None else Some(rows[i - 1].id))
    && rows[i].userCount == i
    && (rows[i].kind.Initial? <==> i == 0)
    && rows[i].spec.Dict?
  }

  /** Numbers 1..n, the last row active and only it, one chain of base links, n - 1 counted corrections. */
  predicate ChainOk(rows: seq<Revision>) {
    forall i :: 0 <= i < |rows| ==> RowOk(rows, i)
  }

  /** Every row's specification is the fold of the overrides committed up to it. */
  predicate SpecsOk(initial: Json, rows: seq<Revision>, applied: seq<Json>)
    requires initial.Dict?
  {
    && AllDicts(applied)
    && |applied| == (if rows == [] then 0 else |rows| - 1)
    && forall i :: 0 <= i < |rows| ==> SpecOk(initial, rows, applied, i)
  }

  predicate SpecOk(initial: Json, rows: seq<Revision>, applied: seq<Json>, i: nat)
    requires initial.Dict? && i < |rows| && AllDicts(applied)
  {
    i <= |applied| && rows[i].spec == Fold(initial, applied[..i])
  }

  /** What a transaction has read is a committed row, though perhaps no longer the active one. */
  ghost predicate ReadOk(rows: seq<Revision>, base: Option<Revision>) {
    base.Some? ==> exists i :: IsRow(rows, base.value, i)
  }

  predicate IsRow(rows: seq<Revision>, r: Revision, i: nat) {
    i < |rows| && rows[i].(active := true) == r.(active := true)
  }

  /** An uncommitted row continues the committed chain. */
  predicate PendingOk(s: State, row: Revision, override: Json) {
    && row.number == |s.rows| + 1
    && !row.active && row.userCount == 0 && row.spec.Dict? && override.Dict?
    && !Taken(s.rows, row.id, row.number)
    && if s.rows == [] then row.base == None && row.kind.Initial? && row.spec == s.taskSpec
       else
         var last := s.rows[|s.rows| - 1];
         row.base == Some(last.id) && row.kind.Correction? && last.spec.Dict? && row.spec == Merge(last.spec, override)
  }

  ghost predicate SessionOk(s: State, session: nat) {
    match SessionOf(s, session)
    case Read(base) => ReadOk(s.rows, base)
    case Pending(row, override) => PendingOk(s, row, override)
    case _ => true
  }

  /** The mirrored specification agrees with the active revision outside the three patched keys. */
  ghost predicate MirrorOk(s: State) {
    && s.taskSpec.Dict?
    && (s.rows != [] ==>
          && s.rows[|s.rows| - 1].spec.Dict?
          && forall key :: !PatchedKey(key) ==> At(s.taskSpec, key) == At(s.rows[|s.rows| - 1].spec, key))
  }

  predicate OnePending(s: State) {
    forall c, d :: c in s.sessions && d in s.sessions && s.sessions[c].Pending? && s.sessions[d].Pending? ==> c == d
  }

  ghost predicate Inv(initial: Json, s: State)
    requires initial.Dict?
  {
    && ChainOk(s.rows)
    && SpecsOk(initial, s.rows, s.applied)
    && MirrorOk(s)
    && (s.rows == [] ==> s.taskSpec == initial)
    && OnePending(s)
    && forall c :: c in s.sessions ==> SessionOk(s, c)
  }

  lemma ActiveIsLast(rows: seq<Revision>)
    requires ChainOk(rows)
    ensures ActiveOf(rows) == if rows == [] then None else Some(rows[|rows| - 1])
  {
    if rows != [] {
      assert RowOk(rows, |rows| - 1);
    }
  }

  lemma ReadKeepsInv(initial: Json, s: State, c: nat)
    requires initial.Dict? && Inv(initial, s) && Enabled(s, ReadActive(c))
    ensures Inv(initial, Apply(s, ReadActive(c)))
  {
    ActiveIsLast(s.rows);
    var t := Apply(s, ReadActive(c));
    if s.rows != [] {
      assert IsRow(s.rows, s.rows[|s.rows| - 1], |s.rows| - 1);
    }
    SessionsKept(s, t, c);
  }

  /** A step of one transaction leaves the others as they were. */
  lemma SessionsKept(s: State, t: State, c: nat)
    requires t.rows == s.rows && t.taskSpec == s.taskSpec && SessionOk(t, c)
    requires c in t.sessions && t.sessions.Keys == s.sessions.Keys + {c}
    requires forall d :: d in s.sessions && d != c ==> t.sessions[d] == s.sessions[d]
    requires forall d :: d in s.sessions ==> SessionOk(s, d)
    ensures forall d :: d in t.sessions ==> SessionOk(t, d)
  {
    hide PendingOk, ReadOk;
    forall d | d in t.sessions
      ensures SessionOk(t, d)
    {
      if d != c {
        assert SessionOk(s, d) && SessionOf(t, d) == SessionOf(s, d);
        SessionDependsOnRows(s, t, d);
      }
    }
  }

  lemma SessionDependsOnRows(s: State, t: State, d: nat)
    requires t.rows == s.rows && t.taskSpec == s.taskSpec && SessionOf(t, d) == SessionOf(s, d) && SessionOk(s, d)
    ensures SessionOk(t, d)
  {}

  /** A transaction whose base is not the newest row is refused; what is not refused continues the chain. */
  lemma InsertContinuesTheChain(s: State, base: Option<Revision>, id: nat, override: Json)
    requires ChainOk(s.rows) && s.taskSpec.Dict? && override.Dict? && ReadOk(s.rows, base)
    requires base.Some? ==> base.value.spec.Dict?
    ensures var row := NewRow(s, base, id, override);
            && (Taken(s.rows, id, row.number)
                <==> row.number <= |s.rows| || exists i :: 0 <= i < |s.rows| && s.rows[i].id == id)
            && (!Taken(s.rows, id, row.number) ==> PendingOk(s, row, override))
  {
    var row := NewRow(s, base, id, override);
    hide Merge;
    if row.number <= |s.rows| {
      assert RowOk(s.rows, row.number - 1) && s.rows[row.number - 1].number == row.number;
    }
    if Taken(s.rows, id, row.number) {
      var i :| 0 <= i < |s.rows| && (s.rows[i].id == id || s.rows[i].number == row.number);
      assert RowOk(s.rows, i);
    } else if base.Some? {
      var i :| IsRow(s.rows, base.value, i);
      assert RowOk(s.rows, i);
    }
  }

  lemma InsertKeepsInv(initial: Json, s: State, c: nat, id: nat, override: Json)
    requires initial.Dict? && Inv(initial, s) && Enabled(s, InsertRow(c, id, override))
    ensures Inv(initial, Apply(s, InsertRow(c, id, override)))
  {
    var t := Apply(s, InsertRow(c, id, override));
    assert SessionOk(s, c);
    var base := SessionOf(s, c).base;
    InsertContinuesTheChain(s, base, id, override);
    hide RowOk, SpecOk, Taken;
    var row := NewRow(s, base, id, override);
    forall d | d in s.sessions && s.sessions[d].Pending? && t.sessions[c].Pending?
      ensures d == c
    {
      assert SessionOk(s, d);
    }
    SessionsKept(s, t, c);
  }

  lemma RollBackKeepsInv(initial: Json, s: State, c: nat)
    requires initial.Dict? && Inv(initial, s)
    ensures s.taskSpec.Dict? && Inv(initial, Apply(s, RollBack(c)))
  {
    SessionsKept(s, Apply(s, RollBack(c)), c);
  }

  lemma CommitExtendsTheChain(rows: seq<Revision>, row: Revision)
    requires ChainOk(rows) && row.number == |rows| + 1 && row.userCount == 0 && row.spec.Dict?
    requires row.base == if rows == [] then None else Some(rows[|rows| - 1].id)
    requires row.kind.Initial? <==> rows == []
    requires !row.active
    ensures var t := Activated(rows + [row], |rows|);
            && ChainOk(t)
            && t[|rows|].spec == row.spec && t[|rows|].id == row.id
            && forall i :: 0 <= i < |rows| ==> t[i] == rows[i].(active := false)
  {
    var all := rows + [row];
    assert all[..|all| - 1] == rows;
    ActiveIsLast(rows);
    assert ActiveOf(all) == ActiveOf(rows);
    var t := Activated(all, |rows|);
    forall i | 0 <= i < |t|
      ensures RowOk(t, i)
    {
      if i < |rows| {
        assert RowOk(rows, i);
      } else if rows != [] {
        assert RowOk(rows, |rows| - 1);
      }
    }
  }

  lemma FirstCommitOpensTheSpecs(initial: Json, t: seq<Revision>, applied: seq<Json>)
    requires initial.Dict? && SpecsOk(initial, [], applied) && |t| == 1 && t[0].spec == initial
    ensures SpecsOk(initial, t, applied)
  {
    FoldOfNone(initial);
    hide Fold;
    assert applied == [];
    assert SpecOk(initial, t, applied, 0);
  }

  lemma CommitExtendsTheSpecs(initial: Json, rows: seq<Revision>, applied: seq<Json>, t: seq<Revision>, override: Json)
    requires initial.Dict? && SpecsOk(initial, rows, applied) && override.Dict?
    requires |t| == |rows| + 1 && forall i :: 0 <= i < |rows| ==> t[i].spec == rows[i].spec
    requires rows != [] && rows[|rows| - 1].spec.Dict? && t[|rows|].spec == Merge(rows[|rows| - 1].spec, override)
    ensures SpecsOk(initial, t, applied + [override])
  {
    hide SpecOk, Fold, Merge, AllDicts;
    assert SpecOk(initial, rows, applied, |rows| - 1);
    OneMoreDict(applied, override);
    NewSpecOk(initial, rows, applied, t, override);
    forall i | 0 <= i < |t|
      ensures SpecOk(initial, t, applied + [override], i)
    {
      if i < |rows| {
        assert SpecOk(initial, rows, applied, i);
        OldSpecOk(initial, rows, applied, t, override, i);
      }
    }
  }

  lemma OneMoreDict(applied: seq<Json>, override: Json)
    requires AllDicts(applied) && override.Dict?
    ensures AllDicts(applied + [override])
  {}

  lemma OldSpecOk(initial: Json, rows: seq<Revision>, applied: seq<Json>, t: seq<Revision>, override: Json, i: nat)
    requires initial.Dict? && AllDicts(applied) && override.Dict?
    requires i < |rows| <= |t| && SpecOk(initial, rows, applied, i) && t[i].spec == rows[i].spec
    ensures SpecOk(initial, t, applied + [override], i)
  {
    hide Fold;
    assert (applied + [override])[..i] == applied[..i];
  }

  lemma NewSpecOk(initial: Json, rows: seq<Revision>, applied: seq<Json>, t: seq<Revision>, override: Json)
    requires initial.Dict? && AllDicts(applied) && override.Dict?
    requires rows != [] && |applied| == |rows| - 1 && SpecOk(initial, rows, applied, |rows| - 1)
    requires rows[|rows| - 1].spec.Dict?
    requires |t| == |rows| + 1 && t[|rows|].spec == Merge(rows[|rows| - 1].spec, override)
    ensures SpecOk(initial, t, applied + [override], |rows|)
  {
    hide Fold, Merge;
    FoldMore(initial, applied, override);
    var more := applied + [override];
    assert applied[..|rows| - 1] == applied && more[..|rows|] == more;
  }

  lemma FoldOfNone(initial: Json)
    requires initial.Dict?
    ensures AllDicts([]) && Fold(initial, []) == initial
  {}

  lemma CommitKeepsReads(rows: seq<Revision>, t: seq<Revision>, base: Option<Revision>)
    requires ReadOk(rows, base) && |t| >= |rows| && forall i :: 0 <= i < |rows| ==> t[i] == rows[i].(active := false)
    ensures ReadOk(t, base)
  {
    if base.Some? {
      var i :| IsRow(rows, base.value, i);
      assert IsRow(t, base.value, i);
    }
  }

  lemma CommitKeepsInv(initial: Json, s: State, c: nat, aoi: Aoi)
    requires initial.Dict? && Inv(initial, s) && Enabled(s, Commit(c, aoi))
    ensures Inv(initial, Apply(s, Commit(c, aoi)))
  {
    assert SessionOk(s, c);
    var row, override := SessionOf(s, c).row, SessionOf(s, c).override;
    var t := Apply(s, Commit(c, aoi));
    CommitExtendsTheChain(s.rows, row);
    if s.rows == [] {
      FirstCommitOpensTheSpecs(initial, t.rows, s.applied);
    } else {
      CommitExtendsTheSpecs(initial, s.rows, s.applied, t.rows, override);
    }
    hide ChainOk, SpecsOk, Activated;
    forall d | d in t.sessions
      ensures SessionOk(t, d)
    {
      if d != c {
        assert SessionOk(s, d);
        if s.sessions[d].Read? {
          CommitKeepsReads(s.rows, t.rows, s.sessions[d].base);
        }
      }
    }
  }

  lemma {:induction false} RunKeepsInv(taskSpec: Json, steps: seq<Step>)
    requires taskSpec.Dict? && RunOf(taskSpec, steps).Some?
    ensures Inv(taskSpec, RunOf(taskSpec, steps).value)
  {
    if steps != [] {
      var s, step := RunOf(taskSpec, steps[..|steps| - 1]).value, steps[|steps| - 1];
      RunKeepsInv(taskSpec, steps[..|steps| - 1]);
      hide Inv, Enabled, Apply;
      match step
      case ReadActive(c) => ReadKeepsInv(taskSpec, s, c);
      case InsertRow(c, id, override) => InsertKeepsInv(taskSpec, s, c, id, override);
      case Commit(c, aoi) => CommitKeepsInv(taskSpec, s, c, aoi);
      case RollBack(c) => RollBackKeepsInv(taskSpec, s, c);
    }
  }

  // ---- The main results --------------------------------------------------------------------------------------

  /**
   * However corrections interleave: committed numbers are exactly 1..n, the row
   * numbered n is the active one and the only one, every row is based on the
   * one before it, and the active row counts n - 1 corrections.
   */
  lemma OneChainOfRevisions(taskSpec: Json, steps: seq<Step>)
    requires taskSpec.Dict? && RunOf(taskSpec, steps).Some?
    ensures var rows := RunOf(taskSpec, steps).value.rows;
            && (forall i :: 0 <= i < |rows| ==> rows[i].number == i + 1)
            && (forall i :: 0 <= i < |rows| ==> (rows[i].active <==> i == |rows| - 1))
            && (forall i :: 0 < i < |rows| ==> rows[i].base == Some(rows[i - 1].id))
            && (rows != [] ==> rows[0].base == None
                               && ActiveOf(rows) == Some(rows[|rows| - 1])
                               && rows[|rows| - 1].userCount == |rows| - 1)
  {
    RunKeepsInv(taskSpec, steps);
    var rows := RunOf(taskSpec, steps).value.rows;
    hide RunOf, SpecsOk, MirrorOk, SessionOk;
    ActiveIsLast(rows);
    forall i | 0 <= i < |rows|
      ensures rows[i].number == i + 1 && (rows[i].active <==> i == |rows| - 1)
      ensures i > 0 ==> rows[i].base == Some(rows[i - 1].id)
    {
      assert RowOk(rows, i);
    }
    if rows != [] {
      assert RowOk(rows, 0) && RowOk(rows, |rows| - 1);
    }
  }

  /**
   * The active specification is the left fold of merge_dicts over the committed
   * overrides, and the mirrored specification agrees with it outside the three
   * patched keys.
   */
  lemma ActiveSpecIsTheFold(taskSpec: Json, steps: seq<Step>)
    requires taskSpec.Dict? && RunOf(taskSpec, steps).Some?
    ensures var s := RunOf(taskSpec, steps).value;
            s.rows != [] ==>
              && |s.applied| == |s.rows| - 1 && AllDicts(s.applied)
              && s.rows[|s.rows| - 1].spec == Fold(taskSpec, s.applied)
              && s.taskSpec.Dict?
              && forall key :: !PatchedKey(key) ==> At(s.taskSpec, key) == At(Fold(taskSpec, s.applied), key)
  {
    RunKeepsInv(taskSpec, steps);
    hide Fold, RunOf, ChainOk, SessionOk;
    var s := RunOf(taskSpec, steps).value;
    if s.rows != [] {
      assert SpecOk(taskSpec, s.rows, s.applied, |s.rows| - 1);
      assert s.applied[..|s.rows| - 1] == s.applied;
    }
  }

  /**
   * A transaction's insertion is refused exactly if another revision was
   * committed since it read the active one, or its key is in use; when the
   * first revision is refused for its number, there is an active one to reload.
   */
  lemma RefusedExactlyWhenStale(taskSpec: Json, steps: seq<Step>, c: nat, id: nat, override: Json)
    requires taskSpec.Dict? && RunOf(taskSpec, steps).Some?
    requires Enabled(RunOf(taskSpec, steps).value, InsertRow(c, id, override))
    ensures var s := RunOf(taskSpec, steps).value;
            var base := SessionOf(s, c).base;
            var stale := |s.rows| != if base.Some? then base.value.number else 0;
            && (SessionOf(Apply(s, InsertRow(c, id, override)), c) == Refused
                <==> stale || exists i :: 0 <= i < |s.rows| && s.rows[i].id == id)
            && (base.None? && stale ==> ActiveOf(s.rows).Some?)
  {
    RunKeepsInv(taskSpec, steps);
    var s := RunOf(taskSpec, steps).value;
    hide RunOf;
    assert SessionOk(s, c);
    var base := SessionOf(s, c).base;
    InsertContinuesTheChain(s, base, id, override);
    if base.Some? {
      var i :| IsRow(s.rows, base.value, i);
      assert RowOk(s.rows, i);
    }
    ActiveIsLast(s.rows);
  }

  /** What the mirrored specification shows the user after a revision is committed. */
  predicate ShowsOutcome(spec: Json, aoi: Aoi)
    requires spec.Dict?
  {
    match aoi
    case Usable =>
      && At(spec, "need_confirmation") == Some(Leaf("false")) && At(spec, "missing_fields") == Some(Leaf("[]"))
      && At(spec, "clarification_message") == Some(Leaf("null"))
    case Blocked(missing, reason) =>
      && At(spec, "need_confirmation") == Some(Leaf("true")) && At(spec, "missing_fields") == Some(missing)
      && At(spec, "clarification_message") == Some(reason)
  }

  lemma MirrorShowsOutcome(row: Revision, aoi: Aoi)
    requires row.spec.Dict?
    ensures row.kind.Correction? || aoi.Blocked? ==> ShowsOutcome(Mirrored(row, aoi), aoi)
    ensures !(row.kind.Correction? || aoi.Blocked?) ==> Mirrored(row, aoi) == row.spec
  {
    assert "need_confirmation" != "missing_fields" && "missing_fields" != "clarification_message"
        && "need_confirmation" != "clarification_message" by {
      assert |"need_confirmation"| == 17 && |"missing_fields"| == 14 && |"clarification_message"| == 21;
    }
  }

  /**
   * Whatever happened before: a committed correction whose area is usable asks
   * nothing, one whose area is blocked asks for confirmation with its missing fields
   * and its reason; a first revision asks only if it is blocked.
   */
  lemma CommitShowsOutcome(taskSpec: Json, steps: seq<Step>, c: nat, aoi: Aoi)
    requires taskSpec.Dict? && RunOf(taskSpec, steps).Some? && Enabled(RunOf(taskSpec, steps).value, Commit(c, aoi))
    ensures var s := RunOf(taskSpec, steps).value;
            var t := Apply(s, Commit(c, aoi));
            && t.taskSpec.Dict?
            && (s.rows != [] || aoi.Blocked? ==> ShowsOutcome(t.taskSpec, aoi))
            && (s.rows == [] && aoi == Usable ==> t.taskSpec == taskSpec)
  {
    RunKeepsInv(taskSpec, steps);
    var s := RunOf(taskSpec, steps).value;
    hide RunOf, ChainOk, SpecsOk, ShowsOutcome;
    assert SessionOk(s, c);
    MirrorShowsOutcome(SessionOf(s, c).row, aoi);
  }
}
