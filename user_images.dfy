/**
 * The `UserImages.js` handler: every key is resized into a fixed 500 by
 * 500 box, the table is always `UserImages` (with the `dev` prefix for a
 * development bucket), and the record holding the full key is written only
 * after a successful upload.
 */
module UserImages {
  import opened Wrappers
  import opened JsString
  import opened UriDecode
  import opened Scaling
  import opened Common
  import opened Aws

  const MAX_WIDTH: nat := 500
  const MAX_HEIGHT: nat := 500

  /** `UserImages`, prefixed with `dev` exactly when the bucket name contains `dev`. */
  function ResolveTable(srcBucket: string): (t: Table)
    ensures t.Name?
    ensures Contains(srcBucket, "dev") <==> t.name == "devUserImages"
    ensures !Contains(srcBucket, "dev") <==> t.name == "UserImages"
  {
    var base := Name("UserImages");
    if Contains(srcBucket, "dev") then Prefixed("dev", base) else base
  }

  /** The code before the waterfall: decode, name, check; there is no category check. */
  function Prepare(srcBucket: string, rawKey: string): (p: Preparation)
    ensures p.Ready? ==> p.plan.maxWidth == MAX_WIDTH && p.plan.maxHeight == MAX_HEIGHT
    ensures p.Ready? ==>
      && p.plan.srcBucket == srcBucket && p.plan.dstBucket == srcBucket + RESIZED_SUFFIX
      && IsValidType(p.plan.imageType)
  {
    match DecodeKey(rawKey)
    case Err(e) => Threw(e)
    case Ok(srcKey) =>
      var dstBucket := DestinationBucket(srcBucket);
      var dstKey := ReplaceFirst(srcKey, "orig", "500");
      var dbTable := ResolveTable(srcBucket);
      match CheckTarget(srcBucket, dstBucket, srcKey)
      case Err(e) => Rejected(e)
      case Ok(imageType) => Ready(Plan(srcBucket, srcKey, dstBucket, dstKey, MAX_WIDTH, MAX_HEIGHT, dbTable, imageType))
  }

  /**
   * Decoding failure throws; then the extension and the allow-list reject
   * with their messages; every other key is accepted, its destination key
   * being the key with its first `orig` replaced by `500`, and its box 500
   * by 500.
   */
  lemma PrepareOutcome(srcBucket: string, rawKey: string)
    ensures Prepare(srcBucket, rawKey).Threw? <==> DecodeKey(rawKey).Err?
    ensures DecodeKey(rawKey).Ok? ==>
      var srcKey := DecodeKey(rawKey).value;
      var p := Prepare(srcBucket, rawKey);
      && ('.' !in srcKey ==> p == Rejected(NO_TYPE_ERROR))
      && (MatchExtension(srcKey).Some? && !IsValidType(MatchExtension(srcKey).value) ==>
            p == Rejected(UnsupportedTypeMessage(MatchExtension(srcKey).value)))
      && (p.Ready? <==> MatchExtension(srcKey).Some? && IsValidType(MatchExtension(srcKey).value))
      && (p.Ready? ==>
            p.plan == Plan(srcBucket, srcKey, srcBucket + RESIZED_SUFFIX, ReplaceFirst(srcKey, "orig", "500"),
                           500, 500, ResolveTable(srcBucket), MatchExtension(srcKey).value))
  {
    if DecodeKey(rawKey).Ok? {
      assert DestinationBucket(srcBucket) != srcBucket;
    }
  }

  /** The same-bucket guard can never fire. */
  lemma SameBucketUnreachable(srcBucket: string, rawKey: string)
    ensures Prepare(srcBucket, rawKey) != Rejected(SAME_BUCKET_ERROR)
  {
    if DecodeKey(rawKey).Ok? {
      var srcKey := DecodeKey(rawKey).value;
      assert DestinationBucket(srcBucket) != srcBucket;
      assert NO_TYPE_ERROR != SAME_BUCKET_ERROR;
      if MatchExtension(srcKey).Some? {
        var t := MatchExtension(srcKey).value;
        MessagesDiffer(t);
      }
    }
  }

  /**
   * The body of `save`: on an error it passes the error on and writes
   * nothing; otherwise it puts the record holding the id and the full key.
   */
  function Save(err: Option<StepError>, p: Plan, env: Services): (r: (seq<Action>, Option<StepError>))
    ensures err.Some? ==> r == ([], err)
    ensures err.None? ==>
      && |r.0| == 1 && r.0[0].DbPut? && r.0[0].table == p.dbTable
      && r.0[0].item == UserImageItem(RecordId(p.srcKey), env.now, p.srcKey)
      && r.1 == r.0[0].failure
      && (r.1.None? <==> p.dbTable.Name? && env.record.None?)
  {
    if err.Some? then ([], err)
    else
      var put := DbPut(p.dbTable, UserImageItem(RecordId(p.srcKey), env.now, p.srcKey), PutFailure(p.dbTable, env.record));
      ([put], put.failure)
  }

  /**
   * Download, transform, upload, save, stopping at the first error; the
   * first error is logged, and the reply is always `(null, "message")`.
   */
  function Waterfall(p: Plan, env: Services): (inv: Invocation)
    requires SizeKnown(env) && p.maxWidth > 0 && p.maxHeight > 0
    ensures inv.reply == Some(Reply(None, Some(DONE_MESSAGE)))
    ensures 1 <= |inv.actions| <= 4 && inv.actions[0].GetObject?
    ensures inv.log == Some(Succeeded) <==>
      env.download.Ok? && env.encode.Ok? && env.upload.None? && p.dbTable.Name? && env.record.None?
  {
    match env.download
    case Err(e) => Finish([GetObject(p.srcBucket, p.srcKey, Some(e))], Some(e))
    case Ok(obj) =>
      var get := GetObject(p.srcBucket, p.srcKey, None);
      var size := Fit(p.maxWidth, p.maxHeight, obj.width, obj.height);
      match env.encode
      case Err(e) => Finish([get, Resize(size.width, size.height, p.imageType, Some(e))], Some(e))
      case Ok(buffer) =>
        var resize := Resize(size.width, size.height, p.imageType, None);
        var upload := PutObject(p.dstBucket, p.dstKey, buffer, obj.contentType, env.upload);
        if env.upload.Some? then Finish([get, resize, upload], env.upload)
        else
          var (saved, failure) := Save(None, p, env);
          Finish([get, resize, upload] + saved, failure)
  }

  /** One invocation of the handler on the bucket and raw key of `Records[0]`. */
  function Handler(srcBucket: string, rawKey: string, env: Services): (inv: Invocation)
    requires SizeKnown(env)
    ensures inv.actions != [] <==> Prepare(srcBucket, rawKey).Ready?
    ensures inv.reply == None <==> Prepare(srcBucket, rawKey).Threw?
  {
    var prep := Prepare(srcBucket, rawKey);
    if prep.Ready? then Waterfall(prep.plan, env) else Stopped(prep)
  }

  /**
   * A key that fails decoding or a check issues no request; every key that
   * passes starts with the download and is acknowledged with
   * `(null, "message")`, whatever the services answer.
   */
  lemma HandlerReplies(srcBucket: string, rawKey: string, env: Services)
    requires SizeKnown(env)
    ensures var prep, inv := Prepare(srcBucket, rawKey), Handler(srcBucket, rawKey, env);
      && (prep.Threw? ==> inv == Invocation([], None, None))
      && (prep.Rejected? ==> inv == Invocation([], None, Some(Reply(Some(prep.error), None))))
      && (prep.Ready? ==>
            && inv.reply == Some(Reply(None, Some(DONE_MESSAGE)))
            && |inv.actions| > 0
            && inv.actions[0].GetObject? && inv.actions[0].bucket == srcBucket && inv.actions[0].key == prep.plan.srcKey)
  {
  }

  /** The resize request fits the 500 by 500 box, reaches it on one side and keeps the aspect ratio. */
  lemma ResizeFitsBox(p: Plan, env: Services)
    requires SizeKnown(env) && p.maxWidth == MAX_WIDTH && p.maxHeight == MAX_HEIGHT && env.download.Ok?
    ensures var inv, obj := Waterfall(p, env), env.download.value;
      && |inv.actions| >= 2 && inv.actions[1].Resize?
      && inv.actions[1].width <= 500.0 && inv.actions[1].height <= 500.0
      && (inv.actions[1].width == 500.0 || inv.actions[1].height == 500.0)
      && inv.actions[1].width * obj.height as real == inv.actions[1].height * obj.width as real
  {
  }

  /**
   * A put is issued only after an upload that succeeded; a failed upload
   * ends the run with its error logged.
   */
  lemma PutOnlyAfterUpload(p: Plan, env: Services)
    requires SizeKnown(env) && p.maxWidth > 0 && p.maxHeight > 0
    ensures var inv := Waterfall(p, env);
      forall i :: 0 <= i < |inv.actions| && inv.actions[i].DbPut? ==>
        i == 3 && inv.actions[2] == PutObject(p.dstBucket, p.dstKey, env.encode.value, env.download.value.contentType, None)
    ensures env.download.Ok? && env.encode.Ok? && env.upload.Some? ==>
      |Waterfall(p, env).actions| == 3 && Waterfall(p, env).log == Some(Failed(env.upload.value))
  {
  }

  /**
   * In the stores: whenever the record lands, the resized image has landed
   * under the destination bucket and key first.
   */
  lemma RecordImpliesImage(p: Plan, env: Services, objects: map<(string, string), StoredObject>, tables: map<string, map<string, Item>>)
    requires SizeKnown(env) && p.maxWidth > 0 && p.maxHeight > 0
    requires Recorded(tables, Waterfall(p, env).actions) != tables
    ensures env.download.Ok? && env.encode.Ok? && env.upload.None?
    ensures (p.dstBucket, p.dstKey) in Uploaded(objects, Waterfall(p, env).actions)
    ensures Uploaded(objects, Waterfall(p, env).actions)[(p.dstBucket, p.dstKey)] ==
      StoredObject(env.encode.value, env.download.value.contentType)
  {
    var a := Waterfall(p, env).actions;
    if |a| < 4 {
      NoPutKeepsTables(tables, a);
      assert false;
    }
    assert a == a[..3] + [a[3]] && a[..3] == a[..2] + [a[2]];
    ReadOnlyRequests(objects, tables, a[..2]);
    UploadedAppend(objects, a[..2], a[2]);
    UploadedAppend(objects, a[..3], a[3]);
  }

  /**
   * After a successful upload the fourth and last request is the put of the
   * record: into the resolved table, with the id before the first `-orig`,
   * the clock reading and the full decoded key as file name; the run logs
   * the put's outcome.
   */
  lemma RecordOfUpload(p: Plan, env: Services)
    requires SizeKnown(env) && p.maxWidth > 0 && p.maxHeight > 0
    requires env.download.Ok? && env.encode.Ok? && env.upload.None?
    ensures var inv := Waterfall(p, env);
      && |inv.actions| == 4
      && inv.actions[3] == DbPut(p.dbTable, UserImageItem(RecordId(p.srcKey), env.now, p.srcKey), inv.actions[3].failure)
      && (inv.actions[3].failure.None? <==> p.dbTable.Name? && env.record.None?)
      && (inv.log == Some(Succeeded) <==> p.dbTable.Name? && env.record.None?)
  {
  }

  /**
   * In the stores: when every step succeeds, the resized image is stored
   * under the destination and the record under its id in the table, and
   * the run logs success.
   */
  lemma RecordStored(p: Plan, env: Services, objects: map<(string, string), StoredObject>, tables: map<string, map<string, Item>>)
    requires SizeKnown(env) && p.maxWidth > 0 && p.maxHeight > 0
    requires env.download.Ok? && env.encode.Ok? && env.upload.None? && env.record.None? && p.dbTable.Name?
    ensures Waterfall(p, env).log == Some(Succeeded)
    ensures var stored := Uploaded(objects, Waterfall(p, env).actions);
      && (p.dstBucket, p.dstKey) in stored
      && stored[(p.dstBucket, p.dstKey)] == StoredObject(env.encode.value, env.download.value.contentType)
    ensures var after := Recorded(tables, Waterfall(p, env).actions);
      && p.dbTable.name in after && RecordId(p.srcKey) in after[p.dbTable.name]
      && after[p.dbTable.name][RecordId(p.srcKey)] == UserImageItem(RecordId(p.srcKey), env.now, p.srcKey)
  {
    var a := Waterfall(p, env).actions;
    assert a == a[..3] + [a[3]] && a[..3] == a[..2] + [a[2]];
    ReadOnlyRequests(objects, tables, a[..2]);
    UploadedAppend(objects, a[..2], a[2]);
    UploadedAppend(objects, a[..3], a[3]);
    RecordedAppend(tables, a[..2], a[2]);
    RecordedAppend(tables, a[..3], a[3]);
  }

  /** The waterfall run against the stores, request by request. */
  method RunWaterfall(cloud: Cloud, p: Plan, env: Services) returns (inv: Invocation)
    requires SizeKnown(env) && p.maxWidth > 0 && p.maxHeight > 0
    modifies cloud
    ensures inv == Waterfall(p, env)
    ensures cloud.objects == Uploaded(old(cloud.objects), inv.actions)
    ensures cloud.tables == Recorded(old(cloud.tables), inv.actions)
  {
    var actions: seq<Action>;
    if env.download.Err? {
      actions := [GetObject(p.srcBucket, p.srcKey, Some(env.download.error))];
      ReadOnlyRequests(cloud.objects, cloud.tables, actions);
      return Finish(actions, Some(env.download.error));
    }
    var obj := env.download.value;
    var size := Fit(p.maxWidth, p.maxHeight, obj.width, obj.height);
    if env.encode.Err? {
      actions := [GetObject(p.srcBucket, p.srcKey, None), Resize(size.width, size.height, p.imageType, Some(env.encode.error))];
      ReadOnlyRequests(cloud.objects, cloud.tables, actions);
      return Finish(actions, Some(env.encode.error));
    }
    actions := [GetObject(p.srcBucket, p.srcKey, None), Resize(size.width, size.height, p.imageType, None)];
    ReadOnlyRequests(cloud.objects, cloud.tables, actions);
    var upload := cloud.PutObject(p.dstBucket, p.dstKey, env.encode.value, obj.contentType, env.upload);
    UploadedAppend(old(cloud.objects), actions, upload);
    RecordedAppend(old(cloud.tables), actions, upload);
    actions := actions + [upload];
    if upload.failure.Some? {
      return Finish(actions, upload.failure);
    }
    var put := cloud.Put(p.dbTable, UserImageItem(RecordId(p.srcKey), env.now, p.srcKey), env.record);
    UploadedAppend(old(cloud.objects), actions, put);
    RecordedAppend(old(cloud.tables), actions, put);
    actions := actions + [put];
    inv := Finish(actions, put.failure);
  }

  /** The handler run against the stores: nothing is requested unless the checks pass. */
  method Handle(cloud: Cloud, srcBucket: string, rawKey: string, env: Services) returns (inv: Invocation)
    requires SizeKnown(env)
    modifies cloud
    ensures inv == Handler(srcBucket, rawKey, env)
    ensures cloud.objects == Uploaded(old(cloud.objects), inv.actions)
    ensures cloud.tables == Recorded(old(cloud.tables), inv.actions)
  {
    var prep := Prepare(srcBucket, rawKey);
    if !prep.Ready? {
      inv := Stopped(prep);
      return;
    }
    inv := RunWaterfall(cloud, prep.plan, env);
  }
}
