/** How the two handlers fit together through the table: a record the ingest
    handler writes carries the partition value the read handler's index query
    selects on, and when the query returns it, it comes back as a lossless
    projection. */
module EndToEnd {
  import opened Values
  import opened Text
  import Ingest
  import ReadRecent

  /** A stored record carries the partition value the read handler queries
      on, under the attribute it queries. */
  lemma StoredRecordIsInQueriedPartition(body: Dict, logId: string, timestamp: int, isoDatetime: string)
    requires Ingest.Validate(body) == None
    ensures var item := Ingest.CreateLogEntry(body, logId, timestamp, isoDatetime);
      && ReadRecent.RecentQuery.keyName in item
      && item[ReadRecent.RecentQuery.keyName] == Str(ReadRecent.RecentQuery.keyValue)
  {
  }

  /** Reading a stored record back gives the id, the same integer timestamp,
      the datetime string, and the lowercased severity and stripped message
      the ingest handler stored (for any body `create_log_entry` accepts, so
      in particular for every validated one); the partition attribute is not returned, and
      the result can be serialised. */
  lemma {:induction false} StoredRecordReadsBack(body: Dict, logId: string, timestamp: int, isoDatetime: string)
    requires Ingest.HasStringFields(body)
    ensures var p := ReadRecent.Project(Ingest.CreateLogEntry(body, logId, timestamp, isoDatetime));
      && p.Success?
      && p.value.Keys == ReadRecent.ProjectedKeys
      && p.value["logId"] == Str(logId)
      && p.value["timestamp"] == Int(timestamp)
      && p.value["datetime"] == Str(isoDatetime + "Z")
      && p.value["severity"] == Str(Lower(body["severity"].s))
      && p.value["message"] == Str(Strip(body["message"].s))
      && ReadRecent.Serialisable(Obj(p.value))
  {
    var item := Ingest.CreateLogEntry(body, logId, timestamp, isoDatetime);
    assert forall k | k in ReadRecent.ProjectedKeys - {"timestamp"} :: item[k].Str?;
    ProjectionOfStrings(item, timestamp);
  }

  /** An item whose five fields are strings and an integral timestamp
      projects to strings and that integer, which `json` can encode. */
  lemma ProjectionOfStrings(item: Dict, n: int)
    requires ReadRecent.ProjectedKeys <= item.Keys && item["timestamp"] == Dec(n as real)
    requires forall k | k in ReadRecent.ProjectedKeys - {"timestamp"} :: item[k].Str?
    ensures ReadRecent.Project(item).Success?
    ensures ReadRecent.Project(item).value["timestamp"] == Int(n)
    ensures ReadRecent.Serialisable(Obj(ReadRecent.Project(item).value))
  {
    ReadRecent.ProjectDropsOthersKeepsTimestamp(item, n);
    var p := ReadRecent.Project(item).value;
    forall k | k in p ensures ReadRecent.Serialisable(p[k]) {
      assert p[k].Str? || p[k].Int?;
    }
  }

  /** The record is one `create_log_entry` builds; every record the ingest
      handler writes is one (see `Ingest.AcceptedBodyIsStored`). */
  ghost predicate WrittenByIngest(item: Dict) {
    exists body: Dict, logId: string, timestamp: int, isoDatetime: string ::
      Ingest.HasStringFields(body) && item == Ingest.CreateLogEntry(body, logId, timestamp, isoDatetime)
  }

  /** A record the ingest handler wrote projects to a value `json` can
      encode. */
  lemma WrittenRecordProjects(item: Dict)
    requires WrittenByIngest(item)
    ensures ReadRecent.Project(item).Success?
    ensures ReadRecent.Serialisable(Obj(ReadRecent.Project(item).value))
  {
    var body: Dict, logId: string, timestamp: int, isoDatetime: string :|
      Ingest.HasStringFields(body) && item == Ingest.CreateLogEntry(body, logId, timestamp, isoDatetime);
    StoredRecordReadsBack(body, logId, timestamp, isoDatetime);
  }

  /** A table holding only records written by the ingest handler is read back
      with status 200 and one log per record, in the table's order. */
  lemma {:induction false} StoredRecordsAreListed(items: seq<Dict>, describe: ReadRecent.Fault -> string)
    requires forall i | 0 <= i < |items| :: WrittenByIngest(items[i])
    ensures var r := ReadRecent.Handle(ReadRecent.Answered(Some(items)), describe);
      && r.statusCode == 200
      && r.body["count"] == Int(|items|)
      && forall i | 0 <= i < |items| :: r.body["logs"].elems[i] == Obj(ReadRecent.Project(items[i]).value)
  {
    forall i | 0 <= i < |items|
      ensures ReadRecent.Project(items[i]).Success?
      ensures ReadRecent.Serialisable(Obj(ReadRecent.Project(items[i]).value))
    {
      WrittenRecordProjects(items[i]);
    }
    ReadRecent.SuccessResponse(items, describe);
  }
}
