/**
 * What both handlers share: the destination bucket, the same-bucket guard,
 * the image type check, the record id, and the vocabulary of a run
 * (foreign step outcomes, the requests issued, the callback reply).
 */
module Common {
  import opened Wrappers
  import opened JsString

  const RESIZED_SUFFIX := "-resized"
  const SAME_BUCKET_ERROR := "Source and destination buckets are the same."
  const NO_TYPE_ERROR := "Could not determine the image type."
  const UNSUPPORTED_TYPE_PREFIX := "Unsupported image type: "
  const DONE_MESSAGE := "message"
  const ORIG_MARKER := "-orig"

  /** The only spellings the handlers resize, matched exactly (no case folding). */
  const VALID_TYPES: seq<string> := ["jpg", "JPG", "jpe", "JPE", "jpeg", "JPEG", "png", "PNG", "bmp", "BMP"]

  /** `srcBucket + '-resized'`: an extension of the source name, so never equal to it. */
  function DestinationBucket(srcBucket: string): (dst: string)
    ensures dst != srcBucket
    ensures |dst| == |srcBucket| + |RESIZED_SUFFIX| && dst[..|srcBucket|] == srcBucket
  {
    srcBucket + RESIZED_SUFFIX
  }

  /** `validTypes.indexOf(imageType) != -1`. */
  predicate IsValidType(imageType: string) {
    imageType in VALID_TYPES
  }

  /** The allow-list is case-sensitive: only all-lower and all-upper spellings pass, and the empty type fails. */
  lemma ValidTypeExamples()
    ensures IsValidType("jpg") && IsValidType("JPEG") && IsValidType("png") && IsValidType("BMP")
    ensures !IsValidType("Jpg") && !IsValidType("gif") && !IsValidType("") && !IsValidType("tiff")
  {
  }

  /** Every allowed type is three or four letters: no `.`, no escape and no `+`. */
  lemma ValidTypeShape(imageType: string)
    requires IsValidType(imageType)
    ensures 3 <= |imageType| <= 4
    ensures '.' !in imageType && '%' !in imageType && '+' !in imageType
  {
  }

  /** The rejection message for `imageType` as the handlers write it: a plain string, with no interpolation. */
  function UnsupportedTypeMessageAsWritten(imageType: string): (m: string) {
    "Unsupported image type: ${imageType}"
  }

  /**
   * As written, the message is the same for every rejected type, so it never
   * names the type: it agrees with the intended message only for a type
   * spelled literally `${imageType}`.
   */
  lemma AsWrittenMessageOmitsType(t1: string, t2: string)
    ensures UnsupportedTypeMessageAsWritten(t1) == UnsupportedTypeMessageAsWritten(t2)
    ensures UnsupportedTypeMessageAsWritten(t1) == UnsupportedTypeMessage(t1) <==> t1 == "${imageType}"
  {
    var placeholder := "${imageType}";
    assert UnsupportedTypeMessageAsWritten(t1) == UNSUPPORTED_TYPE_PREFIX + placeholder;
    if UnsupportedTypeMessageAsWritten(t1) == UnsupportedTypeMessage(t1) {
      UnsupportedTypeMessageNamesType(t1, placeholder);
    }
  }

  /** The rejection message the code evidently intends: the prefix followed by the rejected type. */
  function UnsupportedTypeMessage(imageType: string): string {
    UNSUPPORTED_TYPE_PREFIX + imageType
  }

  /** The intended message names the type: different types give different messages. */
  lemma UnsupportedTypeMessageNamesType(t1: string, t2: string)
    requires UnsupportedTypeMessage(t1) == UnsupportedTypeMessage(t2)
    ensures t1 == t2
  {
    assert t1 == UnsupportedTypeMessage(t1)[|UNSUPPORTED_TYPE_PREFIX|..];
    assert t2 == UnsupportedTypeMessage(t2)[|UNSUPPORTED_TYPE_PREFIX|..];
  }

  /** The rejection messages are pairwise different. */
  lemma MessagesDiffer(imageType: string)
    ensures UnsupportedTypeMessage(imageType) != SAME_BUCKET_ERROR
    ensures UnsupportedTypeMessage(imageType) != NO_TYPE_ERROR
    ensures NO_TYPE_ERROR != SAME_BUCKET_ERROR
  {
    var m := UnsupportedTypeMessage(imageType);
    assert m[0] == m[..|UNSUPPORTED_TYPE_PREFIX|][0] == 'U';
  }

  /**
   * The checks run after the key has been accepted, in source order: the
   * same-bucket guard, then the presence of an extension, then the
   * allow-list. The result is the image type or the error passed to the
   * callback.
   */
  function CheckTarget(srcBucket: string, dstBucket: string, srcKey: string): (r: Result<string, string>)
    ensures r.Ok? <==> srcBucket != dstBucket && MatchExtension(srcKey).Some? && IsValidType(MatchExtension(srcKey).value)
    ensures r.Ok? ==> r.value == MatchExtension(srcKey).value
    ensures srcBucket == dstBucket ==> r == Err(SAME_BUCKET_ERROR)
    ensures srcBucket != dstBucket && '.' !in srcKey ==> r == Err(NO_TYPE_ERROR)
    ensures srcBucket != dstBucket && MatchExtension(srcKey).Some? && !IsValidType(MatchExtension(srcKey).value) ==>
      r == Err(UnsupportedTypeMessage(MatchExtension(srcKey).value))
  {
    if srcBucket == dstBucket then Err(SAME_BUCKET_ERROR)
    else match MatchExtension(srcKey)
      case None => Err(NO_TYPE_ERROR)
      case Some(imageType) =>
        if !IsValidType(imageType) then Err(UnsupportedTypeMessage(imageType))
        else Ok(imageType)
  }

  /**
   * `srcKey.substr(0, srcKey.indexOf('-orig'))`: the key before the first
   * `-orig`; without the marker the length is -1, which `substr` clamps to
   * 0, so the id is empty.
   */
  function RecordId(srcKey: string): (id: string)
    ensures !Contains(srcKey, ORIG_MARKER) ==> id == ""
    ensures Contains(srcKey, ORIG_MARKER) ==>
      && |id| <= |srcKey|
      && srcKey[..|id|] == id
      && OccursAt(srcKey, ORIG_MARKER, |id|)
      && forall i :: 0 <= i < |id| ==> !OccursAt(srcKey, ORIG_MARKER, i)
  {
    Substr(srcKey, 0, IndexOf(srcKey, ORIG_MARKER))
  }

  /** A DynamoDB table name as JavaScript holds it: possibly `undefined`. */
  datatype Table = Undefined | Name(name: string)

  /** `prefix + table`: JavaScript converts `undefined` to the string `"undefined"`. */
  function Prefixed(prefix: string, table: Table): Table {
    Name(prefix + if table.Undefined? then "undefined" else table.name)
  }

  /** What a handler resolved from the event and will run the pipeline with. */
  datatype Plan = Plan(
    srcBucket: string,
    srcKey: string,
    dstBucket: string,
    dstKey: string,
    maxWidth: nat,
    maxHeight: nat,
    dbTable: Table,
    imageType: string)

  /**
   * How the code before the waterfall ends: `decodeURIComponent` threw
   * (nothing catches it), the callback received an error string, or the
   * pipeline starts with a plan.
   */
  datatype Preparation = Threw(exception: string) | Rejected(error: string) | Ready(plan: Plan)

  type Bytes = seq<bv8>

  /** An error reported by S3, DynamoDB or ImageMagick. */
  datatype StepError = StepError(message: string)

  /** What `getObject` returns, with the size ImageMagick reads from its body. */
  datatype SourceObject = SourceObject(body: Bytes, contentType: string, width: nat, height: nat)

  /**
   * The outcomes the foreign services give in one run: the download, the
   * encoding of the resized image, the upload, the database put, and the
   * clock reading used for the record's date.
   */
  datatype Services = Services(
    download: Result<SourceObject, StepError>,
    encode: Result<Bytes, StepError>,
    upload: Option<StepError>,
    record: Option<StepError>,
    now: int)

  /** `size` reports a positive width and height for the downloaded body (its error is not checked by the code). */
  predicate SizeKnown(env: Services) {
    env.download.Ok? ==> env.download.value.width > 0 && env.download.value.height > 0
  }

  /** The item written to DynamoDB: `Images.js` stores the extension, `UserImages.js` the full key. */
  datatype Item =
    | ImageItem(id: string, date: int, extension: string)
    | UserImageItem(id: string, date: int, filename: string)

  /** A request issued to a foreign service, with the error it answered, if any. */
  datatype Action =
    | GetObject(bucket: string, key: string, failure: Option<StepError>)
    | Resize(width: real, height: real, format: string, failure: Option<StepError>)
    | PutObject(bucket: string, key: string, body: Bytes, contentType: string, failure: Option<StepError>)
    | DbPut(table: Table, item: Item, failure: Option<StepError>)

  const MISSING_TABLE := StepError("Missing required key 'TableName' in params")

  /** A put with an `undefined` table name fails its parameter check; otherwise the service decides. */
  function PutFailure(table: Table, outcome: Option<StepError>): Option<StepError>
  {
    if table.Undefined? then Some(MISSING_TABLE) else outcome
  }

  /** Which of the final callback's two log lines is written. */
  datatype Log = Succeeded | Failed(reason: StepError)

  /** The arguments the handler passes to `callback`. */
  datatype Reply = Reply(err: Option<string>, value: Option<string>)

  /** Everything one invocation does: requests in order, the final log line and the reply, if any. */
  datatype Invocation = Invocation(actions: seq<Action>, log: Option<Log>, reply: Option<Reply>)

  /** The waterfall's final callback: log the first error or the success, then always `callback(null, "message")`. */
  function Finish(actions: seq<Action>, failure: Option<StepError>): Invocation
  {
    Invocation(actions, Some(if failure.Some? then Failed(failure.value) else Succeeded), Some(Reply(None, Some(DONE_MESSAGE))))
  }

  /** An invocation that stops before the waterfall. */
  function Stopped(prep: Preparation): Invocation
    requires !prep.Ready?
  {
    if prep.Threw? then Invocation([], None, None) else Invocation([], None, Some(Reply(Some(prep.error), None)))
  }
}
