# Resizing Lambda handlers, modelled in Dafny

This project models the two AWS Lambda handlers of the image-resizing service:

- `Images.js` resizes profile pictures and cover photos.
- `UserImages.js` resizes user images.

Each handler receives an S3 object-created notification. It decodes the object key and works out where the resized copy goes and which DynamoDB table records it. It rejects keys it cannot handle and computes the bounding-box scale. Then it runs download, resize, upload and database put in sequence. In the model it always acknowledges with `callback(null, "message")`; read from the code, `UserImages.js` throws after a successful upload instead (see "## Left out").

Modules, one per concern:

- `JsString`: the ECMAScript string operations the handlers call: `indexOf`, `replace` with a string pattern, `replace(/\+/g, " ")`, Annex B `substr`, and the `/\.([^.]*)$/` extension match.
- `UriDecode`: the key decoding: `+` to space, then `decodeURIComponent`. Also the model's own key encoder, which the decoding undoes; it is not claimed to match the encoding S3 applies to notification keys.
- `Scaling`: the scale factor and the resized size, over exact reals.
- `Common`: what both handlers share:
  - the `-resized` bucket and the same-bucket guard
  - the extension allow-list and the rejection messages
  - the record id
  - the datatypes of a run: foreign step outcomes (`Services`), the requests issued (`Action`) and the reply (`Invocation`)
- `Aws`: the external stores. Class `Cloud` holds S3 objects by bucket and key and DynamoDB items by table and id. Its methods change the stores only when the request succeeds.
- `Images` and `UserImages`: for each handler:
  - `Prepare`: the code before the waterfall, as a function.
  - `Waterfall` and `Handler`: the whole run as a function returning the requests, the log line and the reply.
  - `RunWaterfall` and `Handle`: methods that perform the same run request by request against a `Cloud`, proved equal to the functions.

## Model

| member | source | states |
|---|---|---|
| JsString.IndexOf | Images.js:24 | `indexOf` returns the least index where the pattern occurs, or -1 exactly when it occurs nowhere |
| JsString.ReplaceFirst | Images.js:25 | `replace` with a string pattern splits the key at the first occurrence and swaps only that one; without an occurrence the key is unchanged |
| JsString.PlusToSpace | Images.js:16 | every `+` of the raw key becomes a space, and every other character stays |
| JsString.Substr | Images.js:111 | Annex B `substr`: a non-positive length gives `""`; from start 0 it gives the prefix of the clamped length |
| JsString.LastIndexOf | Images.js:55 | the index of the last `.`, or -1 when the key holds none |
| JsString.MatchExtension | Images.js:55-60 | the regex match is `null` exactly when the key has no `.`; otherwise the key ends with `.` followed by the capture, which holds no `.` |
| UriDecode.DecodeUriComponent | Images.js:16 | a decoded key is never longer than its text, and a failure is always the URIError; `UriDecode.DecodeOkIff` says when it fails |
| UriDecode.DecodeKey | Images.js:16 | the same for the whole key decoding: `+` to space, then `decodeURIComponent` |
| UriDecode.DecodeOkIff | Images.js:16 | `decodeURIComponent` succeeds exactly when every `%` is followed by two hex digits; otherwise it throws a URIError |
| UriDecode.DecodeAppend | Images.js:16 | a decodable prefix decodes the same whatever follows it |
| UriDecode.DecodeKeyInverse | Images.js:16 | for every key, decoding the handlers' way undoes the model's own key encoder `EncodeKey` (space as `+`; every character below 256 other than letters, digits and `-_.~` as one `%XX`; every other character unchanged) |
| UriDecode.DecodeKeyWithoutEscapes | Images.js:16 | a raw key without `%` decodes to itself with every `+` a space, so the result holds no `+` |
| UriDecode.LiteralPlusIsSpace | Images.js:16 | `a+b` decodes to `a b` |
| UriDecode.EscapedPlusIsPlus | Images.js:16 | `%2B` decodes to a literal `+` |
| UriDecode.MalformedEscapeThrows | Images.js:16 | a `%` that starts no complete escape makes decoding throw after any plain prefix, as in `100%.jpg` |
| UriDecode.EscapedPlusKept | UserImages.js:20 | around plain text, an escaped `%2B` decodes to `+` |
| UriDecode.LiteralPlusSpaced | UserImages.js:20 | around plain text, a literal `+` decodes to a space |
| UriDecode.EscapedVersusLiteralPlus | UserImages.js:20 | the escaped and the literal spelling of a plus decode to different keys |
| Scaling.ScaleFactor | Images.js:81-84 | the factor is positive. The scaled image fits the box on both sides and touches it on at least one |
| Scaling.Fit | Images.js:85-86 | the resize size fits the box and reaches it on one side. `width * h == height * w`, so the aspect ratio is exact |
| Scaling.ScaleFactorIsLargest | Images.js:81-84 | no factor that still fits the box exceeds the computed one |
| Scaling.FitEnlargesSmallImages | Images.js:81-86 | an image smaller than the box is enlarged: there is no guard against upscaling |
| Scaling.FitExamples | UserImages.js:63-68 | 1000×500 becomes 500×250 in a 500×500 box and 800×400 in an 800×1920 box |
| Common.DestinationBucket | Images.js:17 | the destination is the source name followed by `-resized`, so it never equals the source |
| Common.ValidTypeExamples | Images.js:63-64 | the allow-list matches exactly: `jpg`, `JPEG`, `png`, `BMP` pass; `Jpg`, `gif`, `tiff` and the empty type fail |
| Common.ValidTypeShape | Images.js:63-64 | every allowed type is three or four characters, with no `.`, `%` or `+` |
| Common.AsWrittenMessageOmitsType | Images.js:65 | for any two types the message as written is the same, so it never names the rejected one; it equals the intended message only for a type spelled `${imageType}` |
| Common.UnsupportedTypeMessageNamesType | Images.js:65 | the intended message determines the type it rejects |
| Common.MessagesDiffer | Images.js:49-67 | the three rejection messages after classification are pairwise different |
| Common.CheckTarget | Images.js:49-67 | checks in order: same bucket, then no `.`, then not on the allow-list, each with its message. It passes exactly when all three pass and returns the extension |
| Common.RecordId | Images.js:111 | the id is the key before the first `-orig`, or `""` when the key has no `-orig` |
| Aws.Cloud.PutObject | Images.js:101-106 | a successful `putObject` stores the body and content type under the destination; a failed one changes nothing |
| Aws.Cloud.Put | Images.js:108-115 | a `put` without a table name fails; a successful one stores the item under its id, replacing an earlier one |
| Images.Classify | Images.js:24-35 | a key containing `picture` is a picture, whether or not it contains `cover`; otherwise a key containing `cover` is a cover; otherwise there is no category |
| Images.ResolveTable | Images.js:38-46 | `user-images` gives `UserImages`. Otherwise `branch-images` gives `BranchImages`. Otherwise the table is `undefined`. `dev` anywhere in the bucket adds the `dev` prefix |
| Images.BaseTable | Images.js:38-43 | the table before the prefix: `UserImages` exactly when the bucket contains `user-images`, `BranchImages` exactly when it contains `branch-images` and not `user-images`, and none otherwise |
| Images.DevTables | Images.js:44-46 | in a `dev` bucket the tables are `devUserImages`, `devBranchImages` or `devundefined` |
| Images.Prepare | Images.js:14-67 | an accepted key keeps the source bucket, goes to the `-resized` bucket, into a square 500 or 1280 box, with a type on the allow-list; `Images.PrepareOutcome` gives the whole outcome |
| Images.Waterfall | Images.js:70-133 | every run starts with the download, issues at most four requests and replies `(null, "message")`; it logs success exactly when the download and the resize succeed and the put to a named table succeeds, whatever the upload answered |
| Images.Handler | Images.js:11-134 | requests are issued exactly when the key is accepted, and there is no reply exactly when decoding throws; `Images.HandlerReplies` gives the replies |
| Images.PrepareOutcome | Images.js:14-67 | a malformed key throws. Rejections come in order: category, then extension, then allow-list. Otherwise the plan holds the decoded key, the `-resized` bucket, the key with its first `orig` replaced by `500` or `1280`, the 500 or 1280 box, the table and the extension as spelled |
| Images.SameBucketUnreachable | Images.js:49-52 | no input is rejected with the same-bucket message |
| Images.HandlerReplies | Images.js:11-133 | a key that throws or is rejected issues no request; a rejection calls back with its error. An accepted key starts with the download and is always acknowledged with `(null, "message")` |
| Images.ResizeFitsBox | Images.js:78-90 | the resize request fits the category's box, reaches it on one side, keeps the aspect ratio and encodes in the key's own type |
| Images.PutDespiteFailedUpload | Images.js:99-116 | once the image is encoded, both the upload and the put are issued whatever the upload answered. The log reflects only the put's outcome |
| Images.RecordWithoutUpload | Images.js:101-116 | after a failed upload and a successful put to a named table, the record is stored although the image is not, and the run logs success |
| Images.NamingConvention | Images.js:19-35 | for every user name without `orig`, `%` or `+` (and without `picture` on a cover) and every allowed extension, `username-picture-orig.ext` is accepted, resized into a 500×500 box as `username-picture-500.ext` with record id `username-picture`, and `username-cover-orig.ext` into a 1280×1280 box as `username-cover-1280.ext` with id `username-cover`, in the `-resized` bucket |
| Images.ConventionalKeyCategory | Images.js:24-35 | a conventional key is classified by its keyword; a cover key is a cover only when the user name does not contain `picture` |
| Images.ConventionalKeyResized | Images.js:25 | the destination of a conventional key replaces its `orig` marker by the size label |
| Images.ConventionalKeyId | Images.js:111 | the record id of a conventional key is the user name, a `-` and the keyword |
| Images.OrigInUserName | Images.js:29 | when the user name starts with `orig`, that `orig` is the one replaced, not the marker: `origami-cover-orig.jpg` becomes `1280ami-cover-orig.jpg` |
| Images.RunWaterfall | Images.js:70-133 | the requests performed against the stores are those of `Waterfall`, and the stores end as those requests leave them |
| Images.Handle | Images.js:11-134 | the whole invocation against the stores equals `Handler`. The stores change only by the requests it issues |
| UserImages.ResolveTable | UserImages.js:25-28 | the table is `devUserImages` exactly when the bucket contains `dev`, and `UserImages` otherwise |
| UserImages.Prepare | UserImages.js:8-9 | every plan has the fixed 500×500 box |
| UserImages.PrepareOutcome | UserImages.js:18-49 | there is no category check. A malformed key throws. A key without `.` or with a type off the allow-list is rejected with its message. Every other key is accepted, its destination being the key with its first `orig` replaced by `500` |
| UserImages.SameBucketUnreachable | UserImages.js:31-34 | no input is rejected with the same-bucket message |
| UserImages.Save | UserImages.js:90-104 | the `save` body passes an error on and writes nothing. Without an error it issues exactly one put into `dbTable`, of the item with the id before the first `-orig`, the clock reading and the full key as `filename`. It passes on the put's outcome, which is a success exactly when the table is named and the store accepts the item |
| UserImages.RecordOfUpload | UserImages.js:81-104 | after a successful upload the fourth and last request is the put of that record into `dbTable`; the run logs success exactly when the table is named and the put succeeds |
| UserImages.RecordStored | UserImages.js:81-118 | when every step succeeds, the resized image is stored under the destination, the record is stored under its id in the table, and the run logs success |
| UserImages.Waterfall | UserImages.js:52-120 | every run starts with the download, issues at most four requests and replies `(null, "message")`; it logs success exactly when download, resize, upload and a put to a named table all succeed |
| UserImages.Handler | UserImages.js:15-121 | requests are issued exactly when the key is accepted, and there is no reply exactly when decoding throws; `UserImages.HandlerReplies` gives the replies |
| UserImages.HandlerReplies | UserImages.js:15-121 | a thrown or rejected key issues no request. An accepted key starts with the download and is always acknowledged with `(null, "message")` |
| UserImages.ResizeFitsBox | UserImages.js:60-72 | the resize request is within 500×500, reaches 500 on one side and keeps the aspect ratio |
| UserImages.PutOnlyAfterUpload | UserImages.js:81-104 | a put is issued only right after an upload that succeeded. A failed upload ends the run with its error logged |
| UserImages.RecordImpliesImage | UserImages.js:81-104 | whenever a record is written, the resized image was stored first under the destination bucket and key |
| UserImages.RunWaterfall | UserImages.js:52-120 | the requests performed against the stores are those of `Waterfall`, and the stores end as those requests leave them |
| UserImages.Handle | UserImages.js:15-121 | the whole invocation against the stores equals `Handler`. The stores change only by the requests it issues |

In several places the code does something a reader might not expect, and the model follows the code:

- `%2B` decodes to a literal `+`, not to a space. Only a literal `+` becomes a space (`UriDecode.EscapedVersusLiteralPlus`).
- There is one resized variant per key, not an ordered list of variants.
- The size is not rounded.
- The extension is not lower-cased, and the allow-list holds ten exact spellings.
- In `Images.js` the record is written even when the upload failed.
- A key without `-orig` gets the empty id; it is not rejected.
- A bucket matching no table issues the put without a table name, and that put fails (`MISSING_TABLE`), so nothing is written and the failure is logged. Only a `dev` bucket writes, to the table `devundefined`.

## Left out

- S3 `getObject` and `putObject`, DynamoDB `put`, and ImageMagick's `size`, `resize` and `toBuffer` are foreign calls. Their outcomes are parameters of a run (`Common.Services`). A put whose table name is `undefined` is taken to fail the SDK's parameter check.
- The error that ImageMagick's `size` passes to its callback is not checked by the code. The model assumes instead that the reported width and height are positive (`Common.SizeKnown`).
- Image decoding and encoding: only the dimension arithmetic is modelled. The resized bytes come from the `encode` outcome.
- JavaScript floating point: the scale factor and sizes are exact reals.
- `decodeURIComponent`'s UTF-8 handling: an escape `%XX` yields the character with code XX. Multi-byte sequences are neither combined nor validated. `UriDecode.DecodeKeyInverse` is proved against the model's own key encoder `UriDecode.EncodeKey`, which writes a character from 128 to 255 as a single `%XX` and leaves a character of 256 or more unescaped. The model does not state which encoding S3 applies to notification keys, so it does not prove that every key S3 delivers decodes back to the object's name. The model decodes `%C3%A9` to the two characters `Ã©` where JavaScript gives `é`, and it accepts `%FF` where JavaScript throws a URIError.
- `async.waterfall` is modelled as a linear sequence that stops at the first error, not its argument passing. In `UserImages.js` the `save` step declares `(err, data, next)`, but after a successful upload the library passes it only the upload's result and the continuation. Read from the code, the mismatch means that after a successful upload `save` receives the upload's response as `err`, takes its error branch and calls `next`, which is `undefined`. That throws, so neither the put nor `callback(null, "message")` happens. The model instead gives `save` no error: `UserImages.Save`, `UserImages.HandlerReplies`, `UserImages.RecordOfUpload`, `UserImages.RecordStored` and `UserImages.RecordImpliesImage` describe what the `save` body states, not what happens at run time.
- What happens after `decodeURIComponent` throws (the Lambda runtime's error reporting) is not modelled; the invocation simply has no reply.
- The log lines' text and `util.inspect` of the event are output only. The model keeps which of the two final lines is written, and the error it reports.
- The clock reading `new Date().getTime()` is the `now` parameter.
- Only `Records[0]` is read: the bucket name and the raw key are the inputs.
- `Gruntfile.js` is build and deploy tooling and is not part of this model.

## Findings

| source | as written | input that shows it | evidently intended | confidence | as-written member | corrected member |
|---|---|---|---|---|---|---|
| Images.js:65 | the message is single-quoted, so `${imageType}` is not substituted | key `photo-picture-orig.gif`: the message is `Unsupported image type: ${imageType}` | `Unsupported image type: gif`, the message naming the rejected value | high; not executed | Common.AsWrittenMessageOmitsType | Common.UnsupportedTypeMessageNamesType |
| UserImages.js:47 | the same single-quoted message | key `photo.gif` | `Unsupported image type: gif` | high; not executed | Common.AsWrittenMessageOmitsType | Common.UnsupportedTypeMessageNamesType |

The handlers in this model use the corrected message, `Common.UnsupportedTypeMessage`.
