/**
 * models/Report.php: the `reports` table. A row is its column map. Ids come
 * from AUTO_INCREMENT; `NOW()` is the parameter `now`; the `status` a new
 * row gets is the column's default, the parameter `defaultStatus` (the
 * table's schema is not part of this model).
 */
module Reports {
  import opened Optional
  import opened Values

  type Row = map<string, Value>

  /** create($data): `$data[...] ?? null` for the optional columns; a missing required column reads as null too. */
  function NewRow(data: map<string, Value>, defaultStatus: Value): (r: Row)
    ensures r.Keys == {"reporter_id", "post_id", "comment_id", "user_id", "reason", "description", "status"}
    ensures forall k :: k in {"post_id", "comment_id", "user_id", "description"} ==> (k !in data ==> r[k] == Null)
    ensures forall k :: k in {"reporter_id", "post_id", "comment_id", "user_id", "reason", "description"} ==> r[k] == Lookup(data, k)
  {
    map["reporter_id" := Lookup(data, "reporter_id"), "post_id" := Lookup(data, "post_id"),
        "comment_id" := Lookup(data, "comment_id"), "user_id" := Lookup(data, "user_id"),
        "reason" := Lookup(data, "reason"), "description" := Lookup(data, "description"),
        "status" := defaultStatus]
  }

  /** getAll's WHERE: `r.status = ?` only when the status argument is truthy. */
  function Filtered(reports: map<int, Row>, status: Value): (r: set<int>)
    ensures !Truthy(status) ==> r == reports.Keys
    ensures Truthy(status) ==> forall id :: id in r <==> id in reports && Lookup(reports[id], "status") == status
  {
    if Truthy(status) then set id | id in reports && Lookup(reports[id], "status") == status
    else reports.Keys
  }

  /** Filtering by a status never adds rows, and the rows of different statuses are apart. */
  lemma FilteredPartition(reports: map<int, Row>, s: Value, t: Value)
    requires Truthy(s) && Truthy(t) && s != t
    ensures Filtered(reports, s) <= Filtered(reports, Null)
    ensures Filtered(reports, s) * Filtered(reports, t) == {}
  {
  }

  /** The columns update() may write, in the order it checks them. */
  const AllowedFields: seq<string> := ["status", "admin_notes", "resolved_by", "resolved_at"]

  /** `isset($data[$field])`. */
  predicate Given(data: map<string, Value>, k: string)
  {
    k in data && data[k] != Null
  }

  /** The columns of the list that are `isset` in the data, in list order. */
  function Present(data: map<string, Value>, cols: seq<string>): (r: seq<string>)
    ensures forall f :: f in r <==> f in cols && Given(data, f)
  {
    if cols == [] then []
    else (if Given(data, cols[0]) then [cols[0]] else []) + Present(data, cols[1..])
  }

  /** The row after update's SET clause on the given columns. */
  function Updated(row: Row, data: map<string, Value>, cols: seq<string>): (r: Row)
    requires forall f :: f in cols ==> f in data
    ensures r.Keys == row.Keys + set f | f in cols
    decreases |cols|
  {
    if cols == [] then row
    else
      assert cols[0] in cols;
      Updated(row[cols[0] := data[cols[0]]], data, cols[1..])
  }

  /**
   * Only a whitelisted column that the data sets changes, to the data's
   * value; every other column, `reporter_id` and `reason` included, is kept.
   */
  lemma {:induction false} UpdatedWhitelist(row: Row, data: map<string, Value>, cols: seq<string>, k: string)
    requires forall f :: f in cols ==> f in data
    ensures k in cols ==> Updated(row, data, cols)[k] == data[k]
    ensures k !in cols && k in row ==> Updated(row, data, cols)[k] == row[k]
    ensures k !in cols && k !in row ==> k !in Updated(row, data, cols)
    decreases |cols|
  {
    if cols != [] {
      assert cols[0] in cols;
      UpdatedWhitelist(row[cols[0] := data[cols[0]]], data, cols[1..], k);
    }
  }

  /** The foreach over the column list, collecting the columns `isset` in the data. */
  method CollectPresent(data: map<string, Value>, cols: seq<string>) returns (fields: seq<string>)
    ensures fields == Present(data, cols)
  {
    fields := [];
    var i := 0;
    while i < |cols|
      invariant 0 <= i <= |cols|
      invariant fields + Present(data, cols[i..]) == Present(data, cols)
    {
      var rest := cols[i..];
      assert rest[0] == cols[i] && rest[1..] == cols[i + 1..];
      if Given(data, cols[i]) {
        assert Present(data, rest) == [cols[i]] + Present(data, cols[i + 1..]);
        fields := fields + [cols[i]];
      } else {
        assert Present(data, rest) == Present(data, cols[i + 1..]);
      }
      i := i + 1;
    }
  }

  class ReportStore {
    var reports: map<int, Row>
    var nextId: int

    predicate Valid()
      reads this
    {
      forall id :: id in reports ==> id < nextId
    }

    constructor ()
      ensures Valid() && reports == map[]
    {
      reports := map[];
      nextId := 1;
    }

    /** create($data): the new row under the next id, which is returned. */
    method Create(data: map<string, Value>, defaultStatus: Value) returns (id: int)
      requires Valid()
      modifies this
      ensures Valid()
      ensures id == old(nextId) && id !in old(reports)
      ensures reports == old(reports)[id := NewRow(data, defaultStatus)]
    {
      id := nextId;
      var row := map["reporter_id" := Lookup(data, "reporter_id"), "post_id" := Lookup(data, "post_id"),
                     "comment_id" := Lookup(data, "comment_id"), "user_id" := Lookup(data, "user_id"),
                     "reason" := Lookup(data, "reason"), "description" := Lookup(data, "description"),
                     "status" := defaultStatus];
      reports := reports[id := row];
      nextId := nextId + 1;
    }

    /** getAll($page, $perPage, $status): the matching ids and their count, before ordering and paging. */
    method GetAll(status: Value) returns (ids: set<int>, total: nat)
      ensures ids == Filtered(reports, status) && total == |ids|
    {
      if Truthy(status) {
        ids := set id | id in reports && Lookup(reports[id], "status") == status;
      } else {
        ids := reports.Keys;
      }
      total := |ids|;
    }

    /** getPendingCount(): the reports whose status is 'pending', the same rows getAll('pending') counts. */
    method GetPendingCount() returns (n: nat)
      ensures n == |Filtered(reports, Str("pending"))|
    {
      var ids := set id | id in reports && Lookup(reports[id], "status") == Str("pending");
      n := |ids|;
    }

    /**
     * updateStatus($id, $status, $adminId, $notes): the three columns and
     * `resolved_at` are written together; notes left out clear the old ones.
     */
    method UpdateStatus(id: int, status: Value, adminId: Value, notes: Value, now: Value)
      modifies this
      ensures id in old(reports) ==>
        reports == old(reports)[id := old(reports)[id]["status" := status]["resolved_by" := adminId]
                                      ["admin_notes" := notes]["resolved_at" := now]]
      ensures id !in old(reports) ==> reports == old(reports)
      ensures nextId == old(nextId)
    {
      if id in reports {
        reports := reports[id := reports[id]["status" := status]["resolved_by" := adminId]["admin_notes" := notes]["resolved_at" := now]];
      }
    }

    /**
     * update($id, $data): false with nothing changed unless the data sets at
     * least one whitelisted column; otherwise those columns are written.
     */
    method Update(id: int, data: map<string, Value>) returns (ok: bool)
      modifies this
      ensures ok <==> exists f :: f in AllowedFields && Given(data, f)
      ensures ok && id in old(reports) ==> reports == old(reports)[id := Updated(old(reports)[id], data, Present(data, AllowedFields))]
      ensures !ok || id !in old(reports) ==> reports == old(reports)
      ensures nextId == old(nextId)
    {
      var fields := CollectPresent(data, AllowedFields);
      if fields == [] {
        return false;
      }
      assert fields[0] in AllowedFields && Given(data, fields[0]);
      if id in reports {
        reports := reports[id := Updated(reports[id], data, fields)];
      }
      ok := true;
    }
  }
}
