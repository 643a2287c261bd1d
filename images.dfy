/**
 * The `Images.js` handler: a key containing `picture` is resized into a
 * 500 by 500 box, one containing `cover` into a 1280 by 1280 box; the
 * table is chosen from the bucket name; after the upload the record is
 * written whatever the upload reported.
 */
module Images {
  import opened Wrappers
  import opened JsString
  import opened UriDecode
  import opened Scaling
  import opened Common
  import opened Aws

  const INVALID_KEY_ERROR := "Invalid source bucket key."

  datatype Category = Picture | Cover

  /** The `indexOf('picture')` / `indexOf('cover')` cascade: `picture` wins when both occur. */
  function Classify(srcKey: string): (c: Option<Category>)
    ensures c == Some(Picture) <==> Contains(srcKey, "picture")
    ensures c == Some(Cover) <==> !Contains(srcKey, "picture") && Contains(srcKey, "cover")
    ensures c == None <==> !Contains(srcKey, "picture") && !Contains(srcKey, "cover")
  {
    if Contains(srcKey, "picture") then Some(Picture)
    else if Contains(srcKey, "cover") then Some(Cover)
    else None
  }

  /** The side of the square box of a category (`MAX_WIDTH` and `MAX_HEIGHT` alike). */
  function Bound(c: Category): (n: nat)
    ensures n > 0
  {
    match c
    case Picture => 500
    case Cover => 1280
  }

  /** The text that replaces the first `orig` of the key. */
  function SizeLabel(c: Category): string {
    match c
    case Picture => "500"
    case Cover => "1280"
  }

  /**
   * The table: `UserImages` for a bucket containing `user-images`, else
   * `BranchImages` for one containing `branch-images`, else `undefined`;
   * independently, a bucket containing `dev` gets the `dev` prefix.
   */
  function ResolveTable(srcBucket: string): (t: Table)
    ensures Contains(srcBucket, "dev") ==> t.Name? && |t.name| >= 3 && t.name[..3] == "dev"
    ensures !Contains(srcBucket, "dev") && Contains(srcBucket, "user-images") ==> t == Name("UserImages")
    ensures !Contains(srcBucket, "dev") && !Contains(srcBucket, "user-images") && Contains(srcBucket, "branch-images") ==>
      t == Name("BranchImages")
    ensures !Contains(srcBucket, "dev") && !Contains(srcBucket, "user-images") && !Contains(srcBucket, "branch-images") ==>
      t == Undefined
  {
    var base := BaseTable(srcBucket);
    if Contains(srcBucket, "dev") then Prefixed("dev", base) else base
  }

  /** The table before the `dev` prefix: `user-images` is tested before `branch-images`. */
  function BaseTable(srcBucket: string): (t: Table)
    ensures t == Name("UserImages") <==> Contains(srcBucket, "user-images")
    ensures t == Name("BranchImages") <==> !Contains(srcBucket, "user-images") && Contains(srcBucket, "branch-images")
    ensures t == Undefined <==> !Contains(srcBucket, "user-images") && !Contains(srcBucket, "branch-images")
  {
    if Contains(srcBucket, "user-images") then Name("UserImages")
    else if Contains(srcBucket, "branch-images") then Name("BranchImages")
    else Undefined
  }

  /** Under a `dev` bucket the names are prefixed, and an unmatched one becomes the string `devundefined`. */
  lemma DevTables(srcBucket: string)
    requires Contains(srcBucket, "dev")
    ensures Contains(srcBucket, "user-images") ==> ResolveTable(srcBucket) == Name("devUserImages")
    ensures !Contains(srcBucket, "user-images") && Contains(srcBucket, "branch-images") ==>
      ResolveTable(srcBucket) == Name("devBranchImages")
    ensures !Contains(srcBucket, "user-images") && !Contains(srcBucket, "branch-images") ==>
      ResolveTable(srcBucket) == Name("devundefined")
  {
    var base := BaseTable(srcBucket);
    assert ResolveTable(srcBucket) == Prefixed("dev", base);
    DevNames(base);
  }

  /** The `dev` prefix on each base table, as JavaScript's string concatenation spells it. */
  lemma DevNames(base: Table)
    ensures base == Name("UserImages") ==> Prefixed("dev", base) == Name("devUserImages")
    ensures base == Name("BranchImages") ==> Prefixed("dev", base) == Name("devBranchImages")
    ensures base == Undefined ==> Prefixed("dev", base) == Name("devundefined")
  {
  }

  /** The code before the waterfall (decode, classify, name, check), in source order. */
  function Prepare(srcBucket: string, rawKey: string): (p: Preparation)
    ensures p.Ready? ==> p.plan.maxWidth > 0 && p.plan.maxHeight > 0
    ensures p.Ready? ==>
      && p.plan.srcBucket == srcBucket && p.plan.dstBucket == srcBucket + RESIZED_SUFFIX
      && p.plan.maxWidth == p.plan.maxHeight && (p.plan.maxWidth == 500 || p.plan.maxWidth == 1280)
      && IsValidType(p.plan.imageType)
  {
    match DecodeKey(rawKey)
    case Err(e) => Threw(e)
    case Ok(srcKey) =>
      var dstBucket := DestinationBucket(srcBucket);
      match Classify(srcKey)
      case None => Rejected(INVALID_KEY_ERROR)
      case Some(c) =>
        var dstKey := ReplaceFirst(srcKey, "orig", SizeLabel(c));
        var dbTable := ResolveTable(srcBucket);
        match CheckTarget(srcBucket, dstBucket, srcKey)
        case Err(e) => Rejected(e)
        case Ok(imageType) => Ready(Plan(srcBucket, srcKey, dstBucket, dstKey, Bound(c), Bound(c), dbTable, imageType))
  }

  /**
   * The outcome of the checks: decoding failure throws; then the category,
   * then the extension, then the allow-list reject with their messages;
   * otherwise the plan holds the decoded key, the `-resized` bucket, the key
   * with its first `orig` replaced, the category's box, the table and the
   * type.
   */
  lemma PrepareOutcome(srcBucket: string, rawKey: string)
    ensures Prepare(srcBucket, rawKey).Threw? <==> DecodeKey(rawKey).Err?
    ensures DecodeKey(rawKey).Ok? ==>
      var srcKey := DecodeKey(rawKey).value;
      var p := Prepare(srcBucket, rawKey);
      && (Classify(srcKey).None? ==> p == Rejected(INVALID_KEY_ERROR))
      && (Classify(srcKey).Some? && '.' !in srcKey ==> p == Rejected(NO_TYPE_ERROR))
      && (Classify(srcKey).Some? && MatchExtension(srcKey).Some? && !IsValidType(MatchExtension(srcKey).value) ==>
            p == Rejected(UnsupportedTypeMessage(MatchExtension(srcKey).value)))
      && (p.Ready? <==> Classify(srcKey).Some? && MatchExtension(srcKey).Some? && IsValidType(MatchExtension(srcKey).value))
      && (p.Ready? ==>
            var c := Classify(srcKey).value;
            p.plan == Plan(srcBucket, srcKey, srcBucket + RESIZED_SUFFIX, ReplaceFirst(srcKey, "orig", SizeLabel(c)),
                           Bound(c), Bound(c), ResolveTable(srcBucket), MatchExtension(srcKey).value))
  {
    if DecodeKey(rawKey).Ok? {
      var srcKey := DecodeKey(rawKey).value;
      assert DestinationBucket(srcBucket) != srcBucket;
    }
  }

  /** The same-bucket guard can never fire: the destination is the source name with a suffix. */
  lemma SameBucketUnreachable(srcBucket: string, rawKey: string)
    ensures Prepare(srcBucket, rawKey) != Rejected(SAME_BUCKET_ERROR)
  {
    if DecodeKey(rawKey).Ok? {
      var srcKey := DecodeKey(rawKey).value;
      if Classify(srcKey).Some? {
        assert DestinationBucket(srcBucket) != srcBucket;
        assert NO_TYPE_ERROR != SAME_BUCKET_ERROR;
        if MatchExtension(srcKey).Some? {
          var t := MatchExtension(srcKey).value;
          MessagesDiffer(t);
        }
      }
    }
  }

  /**
   * Download, transform, then upload with the put issued from inside the
   * upload's callback, whatever the upload reported; the first error in
   * the waterfall is logged, and the reply is always `(null, "message")`.
   */
  function Waterfall(p: Plan, env: Services): (inv: Invocation)
    requires SizeKnown(env) && p.maxWidth > 0 && p.maxHeight > 0
    ensures inv.reply == Some(Reply(None, Some(DONE_MESSAGE)))
    ensures 1 <= |inv.actions| <= 4 && inv.actions[0].GetObject?
    ensures inv.log == Some(Succeeded) <==> env.download.Ok? && env.encode.Ok? && p.dbTable.Name? && env.record.None?
  {
    match env.download
    case Err(e) => Finish([GetObject(p.srcBucket, p.srcKey, Some(e))], Some(e))
    case Ok(obj) =>
      var get := GetObject(p.srcBucket, p.srcKey, None);
      var size := Fit(p.maxWidth, p.maxHeight, obj.width, obj.height);
      match env.encode
      case Err(e) => Finish([get, Resize(size.width, size.height, p.imageType, Some(e))], Some(e))
      case Ok(buffer) =>
        var resize := Resize(size.width, size.height, p.imageType, None);
        var upload := PutObject(p.dstBucket, p.dstKey, buffer, obj.contentType, env.upload);
        var put := DbPut(p.dbTable, ImageItem(RecordId(p.srcKey), env.now, p.imageType), PutFailure(p.dbTable, env.record));
        Finish([get, resize, upload, put], put.failure)
  }

  /** One invocation of the handler on the bucket and raw key of `Records[0]`. */
  function Handler(srcBucket: string, rawKey: string, env: Services): (inv: Invocation)
    requires SizeKnown(env)
    ensures inv.actions != [] <==> Prepare(srcBucket, rawKey).Ready?
    ensures inv.reply == None <==> Prepare(srcBucket, rawKey).Threw?
  {
    var prep := Prepare(srcBucket, rawKey);
    if prep.Ready? then Waterfall(prep.plan, env) else Stopped(prep)
  }

  /**
   * A key that fails decoding or a check issues no request: a decoding
   * failure never replies, a rejection replies with its error; every key
   * that passes starts with the download and is acknowledged with
   * `(null, "message")`, whatever the services answer.
   */
  lemma HandlerReplies(srcBucket: string, rawKey: string, env: Services)
    requires SizeKnown(env)
    ensures var prep, inv := Prepare(srcBucket, rawKey), Handler(srcBucket, rawKey, env);
      && (prep.Threw? ==> inv == Invocation([], None, None))
      && (prep.Rejected? ==> inv == Invocation([], None, Some(Reply(Some(prep.error), None))))
      && (prep.Ready? ==>
            && inv.reply == Some(Reply(None, Some(DONE_MESSAGE)))
            && |inv.actions| > 0
            && inv.actions[0].GetObject? && inv.actions[0].bucket == srcBucket && inv.actions[0].key == prep.plan.srcKey)
  {
  }

  /**
   * The resize request fits the category's box, reaches it on one side and
   * keeps the source's aspect ratio.
   */
  lemma ResizeFitsBox(p: Plan, env: Services)
    requires SizeKnown(env) && p.maxWidth > 0 && p.maxHeight > 0
    requires env.download.Ok?
    ensures var inv, obj := Waterfall(p, env), env.download.value;
      && |inv.actions| >= 2 && inv.actions[1].Resize?
      && inv.actions[1].width <= p.maxWidth as real && inv.actions[1].height <= p.maxHeight as real
      && (inv.actions[1].width == p.maxWidth as real || inv.actions[1].height == p.maxHeight as real)
      && inv.actions[1].width * obj.height as real == inv.actions[1].height * obj.width as real
      && inv.actions[1].format == p.imageType
  {
  }

  /**
   * Once the image is encoded, the record is put even when the upload
   * failed, and the upload's error is never logged: the log reflects the
   * put alone.
   */
  lemma PutDespiteFailedUpload(p: Plan, env: Services)
    requires SizeKnown(env) && p.maxWidth > 0 && p.maxHeight > 0
    requires env.download.Ok? && env.encode.Ok?
    ensures var inv := Waterfall(p, env);
      && |inv.actions| == 4
      && inv.actions[2] == PutObject(p.dstBucket, p.dstKey, env.encode.value, env.download.value.contentType, env.upload)
      && inv.actions[3] == DbPut(p.dbTable, ImageItem(RecordId(p.srcKey), env.now, p.imageType), PutFailure(p.dbTable, env.record))
      && inv.log == Some(if PutFailure(p.dbTable, env.record).Some? then Failed(PutFailure(p.dbTable, env.record).value) else Succeeded)
  {
  }

  /**
   * In the stores: a failed upload leaves the objects alone while the
   * record still lands in a named table when the put succeeds.
   */
  lemma RecordWithoutUpload(p: Plan, env: Services, objects: map<(string, string), StoredObject>, tables: map<string, map<string, Item>>)
    requires SizeKnown(env) && p.maxWidth > 0 && p.maxHeight > 0
    requires env.download.Ok? && env.encode.Ok? && env.upload.Some? && env.record.None? && p.dbTable.Name?
    ensures var inv := Waterfall(p, env);
      && Uploaded(objects, inv.actions) == objects
      && inv.log == Some(Succeeded)
      && var after := Recorded(tables, inv.actions);
         && p.dbTable.name in after && RecordId(p.srcKey) in after[p.dbTable.name]
         && after[p.dbTable.name][RecordId(p.srcKey)] == ImageItem(RecordId(p.srcKey), env.now, p.imageType)
  {
    var inv := Waterfall(p, env);
    var a := inv.actions;
    assert a == a[..3] + [a[3]] && a[..3] == a[..2] + [a[2]] && a[..2] == [a[0]] + [a[1]];
    ReadOnlyRequests(objects, tables, a[..2]);
    UploadedAppend(objects, a[..2], a[2]);
    UploadedAppend(objects, a[..3], a[3]);
    RecordedAppend(tables, a[..2], a[2]);
    RecordedAppend(tables, a[..3], a[3]);
  }

  /** The word a category's keys are named with. */
  function Keyword(c: Category): string {
    match c
    case Picture => "picture"
    case Cover => "cover"
  }

  /** The text between the user name and the extension of an original. */
  function Infix(c: Category): string {
    "-" + Keyword(c) + "-orig."
  }

  /** The key of an original under the naming convention: `username-picture-orig.png`. */
  function ConventionalKey(user: string, c: Category, ext: string): string {
    user + Infix(c) + ext
  }

  /** Where the keyword and the markers sit in each infix. */
  lemma InfixFacts(c: Category)
    ensures var m, w := Infix(c), Keyword(c);
      && |m| == |w| + 7 && m[0] == '-' && m[1..|w| + 1] == w && m[|w| + 6] == '.'
      && IndexOf(m, "orig") == |w| + 2 && IndexOf(m, ORIG_MARKER) == |w| + 1
      && m[..|w| + 2] == "-" + w + "-" && m[..|w| + 1] == "-" + w
      && '%' !in m && '+' !in m
  {
    KeywordShape(c);
    InfixLayout(Infix(c), Keyword(c));
    InfixMarkers(Infix(c), Keyword(c));
  }

  /** The keywords hold no `-`, no escape and no `+`, and neither starts nor ends an `or` of `orig`. */
  lemma KeywordShape(c: Category)
    ensures var w := Keyword(c);
      && |w| > 0 && '-' !in w && '%' !in w && '+' !in w && w[0] != 'o' && w[|w| - 1] != 'o'
      && forall k :: 0 <= k < |w| - 1 ==> w[k] != 'o' || w[k + 1] != 'r'
  {
  }

  /** The layout of an infix `-w-orig.`. */
  lemma InfixLayout(m: string, w: string)
    requires m == "-" + w + "-orig."
    requires '%' !in w && '+' !in w
    ensures |m| == |w| + 7 && m[0] == '-' && m[1..|w| + 1] == w && m[|w| + 6] == '.'
    ensures m[..|w| + 2] == "-" + w + "-" && m[..|w| + 1] == "-" + w
    ensures '%' !in m && '+' !in m
  {
  }

  /** The markers of an infix `-w-orig.`, when its keyword `w` cannot start or contain them. */
  lemma InfixMarkers(m: string, w: string)
    requires m == "-" + w + "-orig."
    requires '-' !in w
    requires forall k :: 0 <= k < |w| - 1 ==> w[k] != 'o' || w[k + 1] != 'r'
    requires |w| > 0 && w[0] != 'o' && w[|w| - 1] != 'o'
    ensures IndexOf(m, "orig") == |w| + 2 && IndexOf(m, ORIG_MARKER) == |w| + 1
  {
    var n := |w| + 1;
    assert m[1..n] == w;
    assert forall k :: 0 <= k < |w| ==> m[k + 1] == w[k];
    assert m[n..] == "-orig.";
    assert m[n + 1..n + 5] == "orig";
    assert m[n..n + 5] == ORIG_MARKER;
    forall i | 0 <= i < n + 1
      ensures !OccursAt(m, "orig", i)
    {
      assert m[i..i + 4][0] == m[i] && m[i..i + 4][1] == m[i + 1];
      if 1 <= i < |w| {
        assert m[i] == w[i - 1] && m[i + 1] == w[i];
      } else if i == |w| {
        assert m[i] == w[i - 1];
      }
    }
    forall i | 0 <= i < n
      ensures !OccursAt(m, ORIG_MARKER, i)
    {
      assert m[i..i + 5][0] == m[i] && m[i..i + 5][1] == m[i + 1];
      if i == 0 {
        assert m[1] == w[0] != 'o';
      } else {
        assert m[i] == w[i - 1] != '-';
      }
    }
    FirstOccurrence(m, "orig", n + 1);
    FirstOccurrence(m, ORIG_MARKER, n);
  }

  /** In a conventional key the first `orig` and the first `-orig` are those of the infix. */
  lemma ConventionalKeyMarkers(user: string, c: Category, ext: string)
    requires !Contains(user, "orig")
    ensures var s, n := ConventionalKey(user, c, ext), |user| + |Keyword(c)| + 2;
      IndexOf(s, "orig") == n && IndexOf(s, ORIG_MARKER) == n - 1
  {
    InfixFacts(c);
    IndexOfAfter(user, Infix(c), ext, "orig");
    ContainsTail(user, ORIG_MARKER);
    assert ORIG_MARKER[1..] == "orig";
    IndexOfAfter(user, Infix(c), ext, ORIG_MARKER);
  }

  /** The part of a cover key after the user name never spells `picture`. */
  lemma CoverTailWithoutPicture(ext: string)
    requires IsValidType(ext)
    ensures !Contains(Infix(Cover) + ext, "picture")
  {
    var t, m := Infix(Cover) + ext, Infix(Cover);
    ValidTypeShape(ext);
    forall i | 0 <= i
      ensures !OccursAt(t, "picture", i)
    {
      if i + 7 <= |t| {
        assert t[i] == m[i];
        assert t[i..i + 7][0] == t[i];
      }
    }
  }

  /** A conventional key is classified by its keyword, provided the user name does not say `picture` on a cover. */
  lemma ConventionalKeyCategory(user: string, c: Category, ext: string)
    requires c == Cover ==> !Contains(user, "picture")
    requires IsValidType(ext)
    ensures Classify(ConventionalKey(user, c, ext)) == Some(c)
  {
    var s, w := ConventionalKey(user, c, ext), Keyword(c);
    InfixFacts(c);
    MiddleSlice(user, Infix(c), ext, 1, |w| + 1);
    assert OccursAt(s, w, |user| + 1);
    if c == Cover {
      CoverTailWithoutPicture(ext);
      assert user + Infix(c) + ext == user + (Infix(c) + ext);
      AbsentAfter(user, Infix(c) + ext, "picture");
    }
  }

  /** The extension of a conventional key is its allowed type. */
  lemma ConventionalKeyType(user: string, c: Category, ext: string)
    requires IsValidType(ext)
    ensures MatchExtension(ConventionalKey(user, c, ext)) == Some(ext)
  {
    var s, m := ConventionalKey(user, c, ext), Infix(c);
    InfixFacts(c);
    ValidTypeShape(ext);
    var d := |user| + |m| - 1;
    assert s[d] == m[|m| - 1] == '.';
    assert s[d + 1..] == ext;
    var r := LastIndexOf(s, '.');
    assert r == d by {
      forall j | d < j < |s| ensures s[j] != '.' {
        assert s[j] == ext[j - d - 1];
      }
    }
  }

  /** A conventional key is its own decoding: it holds no escape and no `+`. */
  lemma ConventionalKeyDecodes(user: string, c: Category, ext: string)
    requires '%' !in user && '+' !in user && IsValidType(ext)
    ensures DecodeKey(ConventionalKey(user, c, ext)) == Ok(ConventionalKey(user, c, ext))
  {
    var s := ConventionalKey(user, c, ext);
    ValidTypeShape(ext);
    InfixFacts(c);
    assert '%' !in s && '+' !in s;
    DecodeKeyWithoutEscapes(s);
    PlusToSpaceWithoutPlus(s);
  }

  /** The resized key of a conventional key replaces its `orig` marker by the size. */
  lemma ConventionalKeyResized(user: string, c: Category, ext: string)
    requires !Contains(user, "orig")
    ensures ReplaceFirst(ConventionalKey(user, c, ext), "orig", SizeLabel(c)) ==
      user + "-" + Keyword(c) + "-" + SizeLabel(c) + "." + ext
  {
    var s, w, r := ConventionalKey(user, c, ext), Keyword(c), SizeLabel(c);
    var n := |user| + |w| + 2;
    ConventionalKeyMarkers(user, c, ext);
    ConventionalKeySlices(user, c, ext);
    ReplaceFirstAt(s, "orig", r, n);
    var p := user + "-" + w + "-";
    assert s[..n] == p;
    assert p + r + ("." + ext) == p + r + "." + ext;
  }

  /** The record id of a conventional key is the user name and the keyword. */
  lemma ConventionalKeyId(user: string, c: Category, ext: string)
    requires !Contains(user, "orig")
    ensures RecordId(ConventionalKey(user, c, ext)) == user + "-" + Keyword(c)
  {
    var s, w := ConventionalKey(user, c, ext), Keyword(c);
    var n := |user| + |w| + 2;
    ConventionalKeyMarkers(user, c, ext);
    ConventionalKeySlices(user, c, ext);
    assert RecordId(s) == Substr(s, 0, n - 1);
  }

  /** The parts of a conventional key around its markers. */
  lemma ConventionalKeySlices(user: string, c: Category, ext: string)
    ensures var s, w := ConventionalKey(user, c, ext), Keyword(c);
      var n := |user| + |w| + 2;
      && |s| >= n + 4
      && s[..n] == user + "-" + w + "-"
      && s[n + 4..] == "." + ext
      && s[..n - 1] == user + "-" + w
  {
    var s, m, w := ConventionalKey(user, c, ext), Infix(c), Keyword(c);
    KeywordShape(c);
    InfixLayout(m, w);
    PrefixIntoMiddle(user, m, ext, |w| + 2);
    PrefixIntoMiddle(user, m, ext, |w| + 1);
    SuffixFromMiddle(user, m, ext, |w| + 6);
    assert m[|w| + 6..] == ".";
  }

  /**
   * The naming convention: `username-picture-orig.ext` is resized into a
   * 500 by 500 box as `username-picture-500.ext`, `username-cover-orig.ext`
   * into a 1280 by 1280 box as `username-cover-1280.ext`, in the `-resized`
   * bucket, with the record id `username-picture` or `username-cover`; the
   * user name must not itself say `orig` (nor `picture`, on a cover), and
   * holds no escape and no `+`.
   */
  lemma NamingConvention(srcBucket: string, user: string, c: Category, ext: string)
    requires '%' !in user && '+' !in user && !Contains(user, "orig")
    requires c == Cover ==> !Contains(user, "picture")
    requires IsValidType(ext)
    ensures var key := ConventionalKey(user, c, ext);
      && Prepare(srcBucket, key) ==
           Ready(Plan(srcBucket, key, srcBucket + RESIZED_SUFFIX, user + "-" + Keyword(c) + "-" + SizeLabel(c) + "." + ext,
                      Bound(c), Bound(c), ResolveTable(srcBucket), ext))
      && RecordId(key) == user + "-" + Keyword(c)
  {
    ConventionalKeyDecodes(user, c, ext);
    ConventionalKeyCategory(user, c, ext);
    ConventionalKeyType(user, c, ext);
    ConventionalKeyResized(user, c, ext);
    ConventionalKeyId(user, c, ext);
    var s := ConventionalKey(user, c, ext);
    PrepareOutcome(srcBucket, s);
  }

  /**
   * The first `orig` of the key is replaced even when it is part of the
   * user name: `origami-cover-orig.jpg` becomes `1280ami-cover-orig.jpg`.
   */
  lemma OrigInUserName(user: string, c: Category, ext: string)
    requires |user| >= 4 && user[..4] == "orig"
    ensures var s := ConventionalKey(user, c, ext);
      ReplaceFirst(s, "orig", SizeLabel(c)) == SizeLabel(c) + s[4..]
  {
    var s, r := ConventionalKey(user, c, ext), SizeLabel(c);
    assert s[..4] == user[..4];
    assert OccursAt(s, "orig", 0);
    FirstOccurrence(s, "orig", 0);
    ReplaceFirstAt(s, "orig", r, 0);
    assert s[..0] + r == r;
  }

  /** The waterfall run against the stores, request by request. */
  method RunWaterfall(cloud: Cloud, p: Plan, env: Services) returns (inv: Invocation)
    requires SizeKnown(env) && p.maxWidth > 0 && p.maxHeight > 0
    modifies cloud
    ensures inv == Waterfall(p, env)
    ensures cloud.objects == Uploaded(old(cloud.objects), inv.actions)
    ensures cloud.tables == Recorded(old(cloud.tables), inv.actions)
  {
    var actions: seq<Action>;
    if env.download.Err? {
      actions := [GetObject(p.srcBucket, p.srcKey, Some(env.download.error))];
      ReadOnlyRequests(cloud.objects, cloud.tables, actions);
      return Finish(actions, Some(env.download.error));
    }
    var obj := env.download.value;
    var size := Fit(p.maxWidth, p.maxHeight, obj.width, obj.height);
    if env.encode.Err? {
      actions := [GetObject(p.srcBucket, p.srcKey, None), Resize(size.width, size.height, p.imageType, Some(env.encode.error))];
      ReadOnlyRequests(cloud.objects, cloud.tables, actions);
      return Finish(actions, Some(env.encode.error));
    }
    actions := [GetObject(p.srcBucket, p.srcKey, None), Resize(size.width, size.height, p.imageType, None)];
    ReadOnlyRequests(cloud.objects, cloud.tables, actions);
    var upload := cloud.PutObject(p.dstBucket, p.dstKey, env.encode.value, obj.contentType, env.upload);
    UploadedAppend(old(cloud.objects), actions, upload);
    RecordedAppend(old(cloud.tables), actions, upload);
    actions := actions + [upload];
    var put := cloud.Put(p.dbTable, ImageItem(RecordId(p.srcKey), env.now, p.imageType), env.record);
    UploadedAppend(old(cloud.objects), actions, put);
    RecordedAppend(old(cloud.tables), actions, put);
    actions := actions + [put];
    inv := Finish(actions, put.failure);
  }

  /** The handler run against the stores: nothing is requested unless the checks pass. */
  method Handle(cloud: Cloud, srcBucket: string, rawKey: string, env: Services) returns (inv: Invocation)
    requires SizeKnown(env)
    modifies cloud
    ensures inv == Handler(srcBucket, rawKey, env)
    ensures cloud.objects == Uploaded(old(cloud.objects), inv.actions)
    ensures cloud.tables == Recorded(old(cloud.tables), inv.actions)
  {
    var prep := Prepare(srcBucket, rawKey);
    if !prep.Ready? {
      inv := Stopped(prep);
      return;
    }
    inv := RunWaterfall(cloud, prep.plan, env);
  }
}
