/**
 * The external stores the waterfall writes to: S3 objects by bucket and
 * key, and DynamoDB items by table and id (a put overwrites). Each request
 * takes the outcome the service gives it as a parameter and changes the
 * store only when that outcome is a success.
 */
module Aws {
  import opened Wrappers
  import opened Common

  datatype StoredObject = StoredObject(body: Bytes, contentType: string)

  /** The S3 objects after a request: only a successful `putObject` stores its body. */
  function AfterUpload(objects: map<(string, string), StoredObject>, a: Action): map<(string, string), StoredObject> {
    if a.PutObject? && a.failure.None? then objects[(a.bucket, a.key) := StoredObject(a.body, a.contentType)]
    else objects
  }

  function ItemId(item: Item): string {
    match item
    case ImageItem(id, _, _) => id
    case UserImageItem(id, _, _) => id
  }

  /** The DynamoDB tables after a request: only a successful `put` writes, replacing any item with the same id. */
  function AfterPut(tables: map<string, map<string, Item>>, a: Action): map<string, map<string, Item>> {
    if a.DbPut? && a.failure.None? && a.table.Name? then
      var rows := if a.table.name in tables then tables[a.table.name] else map[];
      tables[a.table.name := rows[ItemId(a.item) := a.item]]
    else tables
  }

  /** The S3 objects after a sequence of requests. */
  function Uploaded(objects: map<(string, string), StoredObject>, actions: seq<Action>): map<(string, string), StoredObject>
    decreases |actions|
  {
    if |actions| == 0 then objects else Uploaded(AfterUpload(objects, actions[0]), actions[1..])
  }

  /** The DynamoDB tables after a sequence of requests. */
  function Recorded(tables: map<string, map<string, Item>>, actions: seq<Action>): map<string, map<string, Item>>
    decreases |actions|
  {
    if |actions| == 0 then tables else Recorded(AfterPut(tables, actions[0]), actions[1..])
  }

  lemma {:induction false} UploadedAppend(objects: map<(string, string), StoredObject>, actions: seq<Action>, a: Action)
    ensures Uploaded(objects, actions + [a]) == AfterUpload(Uploaded(objects, actions), a)
    decreases |actions|
  {
    if |actions| == 0 {
      assert [a][1..] == [];
    } else {
      assert (actions + [a])[1..] == actions[1..] + [a];
      UploadedAppend(AfterUpload(objects, actions[0]), actions[1..], a);
    }
  }

  lemma {:induction false} RecordedAppend(tables: map<string, map<string, Item>>, actions: seq<Action>, a: Action)
    ensures Recorded(tables, actions + [a]) == AfterPut(Recorded(tables, actions), a)
    decreases |actions|
  {
    if |actions| == 0 {
      assert [a][1..] == [];
    } else {
      assert (actions + [a])[1..] == actions[1..] + [a];
      RecordedAppend(AfterPut(tables, actions[0]), actions[1..], a);
    }
  }

  /** Requests that are neither a successful upload nor a successful put leave both stores as they were. */
  lemma {:induction false} ReadOnlyRequests(objects: map<(string, string), StoredObject>, tables: map<string, map<string, Item>>, actions: seq<Action>)
    requires forall i :: 0 <= i < |actions| ==> !actions[i].PutObject? && !actions[i].DbPut?
    ensures Uploaded(objects, actions) == objects && Recorded(tables, actions) == tables
    decreases |actions|
  {
    if |actions| > 0 {
      ReadOnlyRequests(objects, tables, actions[1..]);
    }
  }

  /** Requests holding no put leave the tables as they were. */
  lemma {:induction false} NoPutKeepsTables(tables: map<string, map<string, Item>>, actions: seq<Action>)
    requires forall i :: 0 <= i < |actions| ==> !actions[i].DbPut?
    ensures Recorded(tables, actions) == tables
    decreases |actions|
  {
    if |actions| > 0 {
      NoPutKeepsTables(AfterPut(tables, actions[0]), actions[1..]);
    }
  }

  class Cloud {
    var objects: map<(string, string), StoredObject>
    var tables: map<string, map<string, Item>>

    constructor (objects: map<(string, string), StoredObject>, tables: map<string, map<string, Item>>)
      ensures this.objects == objects && this.tables == tables
    {
      this.objects := objects;
      this.tables := tables;
    }

    /** `s3.putObject`: on success the body and content type are stored under the bucket and key. */
    method PutObject(bucket: string, key: string, body: Bytes, contentType: string, outcome: Option<StepError>) returns (a: Action)
      modifies this
      ensures a == Action.PutObject(bucket, key, body, contentType, outcome)
      ensures objects == AfterUpload(old(objects), a) && tables == old(tables)
      ensures outcome.None? ==> (bucket, key) in objects && objects[(bucket, key)] == StoredObject(body, contentType)
    {
      a := Action.PutObject(bucket, key, body, contentType, outcome);
      if outcome.None? {
        objects := objects[(bucket, key) := StoredObject(body, contentType)];
      }
    }

    /** `db.put`: a table name is required; on success the item replaces any item with its id. */
    method Put(table: Table, item: Item, outcome: Option<StepError>) returns (a: Action)
      modifies this
      ensures a == DbPut(table, item, PutFailure(table, outcome))
      ensures tables == AfterPut(old(tables), a) && objects == old(objects)
      ensures a.failure.None? ==> table.name in tables && ItemId(item) in tables[table.name] && tables[table.name][ItemId(item)] == item
    {
      a := DbPut(table, item, PutFailure(table, outcome));
      if a.failure.None? {
        var rows := if table.name in tables then tables[table.name] else map[];
        tables := tables[table.name := rows[ItemId(item) := item]];
      }
    }
  }
}
