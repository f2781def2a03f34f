/** The memories table of one node, and last-writer-wins by version. */
module Storage {

  datatype Metadata = Null | Json(text: string)

  /** A row without its primary key. */
  datatype Row = Row(tenantID: string, agentID: string, memoryType: string, content: string, importance: real,
                     metadata: Metadata, decayFactor: real, version: int)

  datatype MemoryModel = MemoryModel(id: string, row: Row)

  type Rows = map<string, Row>

  /** Where a database transaction may fail; a failed transaction is rolled back. */
  datatype Fault = NoFault | SessionFault | SelectFault | WriteFault | CommitFault

  /** The incoming model is new to the table or has a greater version than the stored row. */
  predicate Writes(rows: Rows, m: MemoryModel) {
    m.id !in rows || m.row.version > rows[m.id].version
  }

  /** An update leaves the tenant and agent of the stored row alone. */
  function Upserted(rows: Rows, m: MemoryModel): Rows {
    if m.id !in rows then rows[m.id := m.row]
    else if m.row.version > rows[m.id].version then
      rows[m.id := m.row.(tenantID := rows[m.id].tenantID, agentID := rows[m.id].agentID)]
    else rows
  }

  predicate UpsertFails(rows: Rows, m: MemoryModel, fault: Fault) {
    fault.SessionFault? || fault.SelectFault? || fault.CommitFault? || (fault.WriteFault? && Writes(rows, m))
  }

  /** A save never reads first; it fails on a taken primary key. */
  predicate SaveFails(rows: Rows, id: string, fault: Fault) {
    fault.SessionFault? || fault.WriteFault? || fault.CommitFault? || id in rows
  }

  class PostgresStore {
    var rows: Rows

    constructor ()
      ensures rows == map[]
    {
      rows := map[];
    }

    method UpsertMemoryWithConflictResolution(m: MemoryModel, fault: Fault) returns (updated: bool, err: bool)
      modifies this
      ensures err <==> UpsertFails(old(rows), m, fault)
      ensures rows == if err then old(rows) else Upserted(old(rows), m)
      ensures !err ==> (updated <==> Writes(old(rows), m))
      ensures fault.NoFault? ==> !err
      ensures fault.SessionFault? || fault.SelectFault? || fault.CommitFault? ==> err
    {
      updated := false;
      if fault.SessionFault? || fault.SelectFault? {
        return false, true;
      }
      var pending := rows;
      if m.id !in rows {
        updated := true;
        if fault.WriteFault? {
          return updated, true;
        }
        pending := pending[m.id := m.row];
      } else {
        var currentVersion := rows[m.id].version;
        if m.row.version > currentVersion {
          updated := true;
          if fault.WriteFault? {
            return updated, true;
          }
          var current := rows[m.id];
          pending := pending[m.id := Row(current.tenantID, current.agentID, m.row.memoryType, m.row.content,
                                         m.row.importance, m.row.metadata, m.row.decayFactor, m.row.version)];
        }
      }
      if fault.CommitFault? {
        return updated, true;
      }
      rows := pending;
      return updated, false;
    }

    /** The database chooses the id; a primary key that is already taken is an error. */
    method SaveMemory(row: Row, id: string, fault: Fault) returns (err: bool)
      modifies this
      ensures err <==> SaveFails(old(rows), id, fault)
      ensures rows == if err then old(rows) else old(rows)[id := row]
      ensures id in old(rows) || (!fault.NoFault? && !fault.SelectFault?) <==> err
    {
      if fault.SessionFault? || fault.WriteFault? || id in rows {
        return true;
      }
      var pending := rows[id := row];
      if fault.CommitFault? {
        return true;
      }
      rows := pending;
      return false;
    }
  }

  // ----- Any sequence of upserts -----

  function UpsertAll(rows: Rows, ms: seq<MemoryModel>): Rows {
    if ms == [] then rows else Upserted(UpsertAll(rows, ms[..|ms| - 1]), ms[|ms| - 1])
  }

  /** `w` is the earliest of the greatest-version models for `id`. */
  ghost predicate Winner(ms: seq<MemoryModel>, id: string, w: nat) {
    && w < |ms| && ms[w].id == id
    && (forall k :: 0 <= k < |ms| && ms[k].id == id ==> ms[k].row.version <= ms[w].row.version)
    && (forall k :: 0 <= k < w && ms[k].id == id ==> ms[k].row.version < ms[w].row.version)
  }

  ghost predicate First(ms: seq<MemoryModel>, id: string, f: nat) {
    && f < |ms| && ms[f].id == id
    && (forall k :: 0 <= k < f ==> ms[k].id != id)
  }

  /** The row that a winner and a first arrival leave behind. */
  ghost function Settled(winner: Row, first: Row): Row {
    winner.(tenantID := first.tenantID, agentID := first.agentID)
  }

  lemma {:induction false} AbsentStaysAbsent(ms: seq<MemoryModel>, id: string)
    ensures id in UpsertAll(map[], ms) <==> exists k :: 0 <= k < |ms| && ms[k].id == id
  {
    if ms != [] {
      AbsentStaysAbsent(ms[..|ms| - 1], id);
    }
  }

  /** The table after any upserts: the first greatest version decides every column but the owner's. */
  lemma {:induction false} UpsertAllSettles(ms: seq<MemoryModel>, id: string) returns (w: nat, f: nat)
    requires id in UpsertAll(map[], ms)
    ensures Winner(ms, id, w) && First(ms, id, f)
    ensures UpsertAll(map[], ms)[id] == Settled(ms[w].row, ms[f].row)
  {
    var n := |ms| - 1;
    var before := UpsertAll(map[], ms[..n]);
    if id in before {
      w, f := UpsertAllSettles(ms[..n], id);
      if ms[n].id == id && ms[n].row.version > before[id].version {
        w := n;
      }
    } else {
      AbsentStaysAbsent(ms[..n], id);
      w, f := n, n;
    }
  }

  // ----- When the order of arrival does not matter -----

  /** `ms` delivers the models of `arrivals`, in some order and with any repetition. */
  ghost predicate Delivers(ms: seq<MemoryModel>, arrivals: set<MemoryModel>) {
    forall m :: m in ms <==> m in arrivals
  }

  ghost predicate OrderIrrelevant(arrivals: set<MemoryModel>) {
    forall ms, ms' :: Delivers(ms, arrivals) && Delivers(ms', arrivals) ==>
      UpsertAll(map[], ms) == UpsertAll(map[], ms')
  }

  ghost predicate Greatest(arrivals: set<MemoryModel>, m: MemoryModel) {
    m in arrivals && forall n :: n in arrivals && n.id == m.id ==> n.row.version <= m.row.version
  }

  /** Models that tie for the greatest version of an id carry the same columns. */
  ghost predicate TiesAgree(arrivals: set<MemoryModel>) {
    forall m, n :: Greatest(arrivals, m) && Greatest(arrivals, n) && m.id == n.id ==>
      Settled(m.row, m.row) == Settled(n.row, m.row)
  }

  ghost predicate OwnersAgree(arrivals: set<MemoryModel>) {
    forall m, n :: m in arrivals && n in arrivals && m.id == n.id ==>
      m.row.tenantID == n.row.tenantID && m.row.agentID == n.row.agentID
  }

  lemma WinnerIsGreatest(ms: seq<MemoryModel>, arrivals: set<MemoryModel>, id: string, w: nat)
    requires Delivers(ms, arrivals) && Winner(ms, id, w)
    ensures Greatest(arrivals, ms[w])
  {
    forall n | n in arrivals && n.id == id ensures n.row.version <= ms[w].row.version {
      assert n in ms;
    }
  }

  /** Nodes that received the same models agree on the whole table, if ties and owners agree. */
  lemma Converges(arrivals: set<MemoryModel>, ms: seq<MemoryModel>, ms': seq<MemoryModel>)
    requires TiesAgree(arrivals) && OwnersAgree(arrivals)
    requires Delivers(ms, arrivals) && Delivers(ms', arrivals)
    ensures UpsertAll(map[], ms) == UpsertAll(map[], ms')
  {
    var a, b := UpsertAll(map[], ms), UpsertAll(map[], ms');
    forall id: string
      ensures id in a <==> id in b
      ensures id in a && id in b ==> a[id] == b[id]
    {
      AbsentStaysAbsent(ms, id);
      AbsentStaysAbsent(ms', id);
      assert forall k :: 0 <= k < |ms| ==> ms[k] in ms';
      assert forall k :: 0 <= k < |ms'| ==> ms'[k] in ms;
      if id in a && id in b {
        var w, f := UpsertAllSettles(ms, id);
        var w', f' := UpsertAllSettles(ms', id);
        WinnerIsGreatest(ms, arrivals, id, w);
        WinnerIsGreatest(ms', arrivals, id, w');
        assert ms[f] in arrivals && ms'[f'] in arrivals;
      }
    }
  }

  lemma {:induction false} SomeDelivery(arrivals: set<MemoryModel>) returns (ms: seq<MemoryModel>)
    ensures Delivers(ms, arrivals)
  {
    if arrivals == {} {
      ms := [];
    } else {
      var m :| m in arrivals;
      ms := SomeDelivery(arrivals - {m});
      ms := [m] + ms;
    }
  }

  lemma EarliestFirst(arrivals: set<MemoryModel>, m: MemoryModel, rest: seq<MemoryModel>)
    requires m in arrivals && Delivers(rest, arrivals)
    ensures Delivers([m] + rest, arrivals)
    ensures m.id in UpsertAll(map[], [m] + rest)
    ensures UpsertAll(map[], [m] + rest)[m.id].tenantID == m.row.tenantID
    ensures UpsertAll(map[], [m] + rest)[m.id].agentID == m.row.agentID
    ensures Greatest(arrivals, m) ==> UpsertAll(map[], [m] + rest)[m.id] == m.row
  {
    var ms := [m] + rest;
    assert ms[0].id == m.id;
    AbsentStaysAbsent(ms, m.id);
    var w, f := UpsertAllSettles(ms, m.id);
    assert f == 0;
    if Greatest(arrivals, m) {
      assert ms[w] in ms;
      assert w == 0;
    }
  }

  lemma IrrelevantOrderAgrees(arrivals: set<MemoryModel>, m: MemoryModel, n: MemoryModel)
    requires OrderIrrelevant(arrivals) && m in arrivals && n in arrivals && m.id == n.id
    ensures m.row.tenantID == n.row.tenantID && m.row.agentID == n.row.agentID
    ensures Greatest(arrivals, m) && Greatest(arrivals, n) ==> m.row == n.row
  {
    var rest := SomeDelivery(arrivals);
    EarliestFirst(arrivals, m, rest);
    EarliestFirst(arrivals, n, rest);
    assert UpsertAll(map[], [m] + rest) == UpsertAll(map[], [n] + rest);
  }

  /** Order and repetition are invisible exactly when ties agree and owners agree. */
  lemma OrderIrrelevantExactly(arrivals: set<MemoryModel>)
    ensures OrderIrrelevant(arrivals) <==> TiesAgree(arrivals) && OwnersAgree(arrivals)
  {
    if TiesAgree(arrivals) && OwnersAgree(arrivals) {
      forall ms, ms' | Delivers(ms, arrivals) && Delivers(ms', arrivals)
        ensures UpsertAll(map[], ms) == UpsertAll(map[], ms')
      {
        Converges(arrivals, ms, ms');
      }
    } else if OrderIrrelevant(arrivals) {
      if !OwnersAgree(arrivals) {
        var m, n :| m in arrivals && n in arrivals && m.id == n.id
          && !(m.row.tenantID == n.row.tenantID && m.row.agentID == n.row.agentID);
        IrrelevantOrderAgrees(arrivals, m, n);
      } else {
        var m, n :| Greatest(arrivals, m) && Greatest(arrivals, n) && m.id == n.id
          && Settled(m.row, m.row) != Settled(n.row, m.row);
        IrrelevantOrderAgrees(arrivals, m, n);
      }
    }
  }

  /** If (id, version) determines the columns and id the owner, order is irrelevant. */
  lemma VersionedModelsConverge(arrivals: set<MemoryModel>)
    requires forall m, n :: m in arrivals && n in arrivals && m.id == n.id ==>
      m.row.tenantID == n.row.tenantID && m.row.agentID == n.row.agentID
      && (m.row.version == n.row.version ==> m.row == n.row)
    ensures OrderIrrelevant(arrivals)
  {
    OrderIrrelevantExactly(arrivals);
  }
}
