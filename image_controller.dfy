/**
 `ImageController`: upload of an image, generation of variations of a stored
 image through the image-generation API (with the fallback to the mock-image
 job when the API reports its billing limit), and the listing of all images.

 Every external call is an input: the validation facts of the uploaded file,
 what the storage disk, the database and the generation API return or throw,
 whether each variation downloads, the `uniqid()` values, and `urlOf`, the
 storage disk's path-to-url function. Each action returns its response and the
 effects it had, in order.
 */
module ImageController {
  import opened Records
  import opened Text
  import opened Effects

  /** What an action answers and what it did. */
  datatype Handled = Handled(response: Response, trace: seq<Effect>)

  // ---------------------------------------------------------------------------
  // upload

  /** What validation learns of the `image` field: the client's file name, the
      MIME type sniffed from the content, the extension guessed from it, whether
      it is an image, and its size. */
  datatype UploadedFile = UploadedFile(originalName: string, mimeType: string, extension: string, isImage: bool, sizeBytes: nat)

  /** The rules of `required|image|mimes:jpg,png|max:2048`, in order. */
  datatype Rule = Required | IsImage | Mimes | MaxSize

  const MaxKilobytes: nat := 2048
  /** `mimes:jpg,png`; the framework accepts `jpeg` wherever `jpg` is listed. */
  const AcceptedExtensions: set<string> := {"jpg", "jpeg", "png"}
  const UploadFailedError := "Image upload failed."

  /** The first rule the field fails; an absent field fails only `required`. */
  function FailedRule(file: Option<UploadedFile>): Option<Rule>
  {
    match file
    case None => Some(Required)
    case Some(f) =>
      if !f.isImage then Some(IsImage)
      else if f.extension !in AcceptedExtensions then Some(Mimes)
      else if f.sizeBytes > MaxKilobytes * 1024 then Some(MaxSize)
      else None
  }

  /** The rule string read as a conjunction. */
  predicate SatisfiesRules(file: Option<UploadedFile>)
  {
    file.Some? && file.value.isImage && file.value.extension in AcceptedExtensions &&
    file.value.sizeBytes <= 2048 * 1024
  }

  lemma FailedRuleMatchesRules(file: Option<UploadedFile>)
    ensures FailedRule(file).None? <==> SatisfiesRules(file)
  {
  }

  /** The validation exception's message, reduced to the name of the rule. */
  function RuleName(r: Rule): string
  {
    match r
    case Required => "required"
    case IsImage => "image"
    case Mimes => "mimes"
    case MaxSize => "max"
  }

  function UploadPath(hashName: string): string { "images/" + hashName }

  /** The catch-all of `upload`: after the effects `done`, log and answer 500. */
  function UploadFailed(message: string, done: seq<Effect>): Handled
  {
    Handled(
      Response(500, Some(map["error" := JStr(UploadFailedError), "message" := JStr(message)])),
      done + [LogError("Image upload failed: " + message)])
  }

  /** `upload`. `stored` is what `store('images', 's3')` does (the generated file
      name, or the exception it throws); `created` is what `Image::create` does
      (the new row's id, or the exception). */
  function Upload(file: Option<UploadedFile>, actor: Option<nat>, stored: Result<string>, created: Result<nat>,
                  urlOf: string -> string): (h: Handled)
    ensures h.response.status == 201 || h.response.status == 500
    ensures h.response.body.Some?
  {
    match FailedRule(file)
    case Some(rule) => UploadFailed(RuleName(rule), [])
    case None =>
      match stored
      case Err(m) => UploadFailed(m, [])
      case Ok(hashName) =>
        var path := UploadPath(hashName);
        var row := ImageRow(file.value.originalName, actor, urlOf(path), file.value.mimeType);
        match created
        case Err(m) => UploadFailed(m, [Put(path)])
        case Ok(id) => Handled(Response(201, Some(map["image" := RowJson(id, row)])), [Put(path), Create(row)])
  }

  /** An upload that fails validation writes nothing to storage or to the table
      and answers 500 with `error = "Image upload failed."`. */
  lemma UploadRejectsInvalid(file: Option<UploadedFile>, actor: Option<nat>, stored: Result<string>, created: Result<nat>,
                             urlOf: string -> string)
    requires !SatisfiesRules(file)
    ensures var h := Upload(file, actor, stored, created, urlOf);
      && h.response.status == 500
      && h.response.body.Some? && "error" in h.response.body.value
      && h.response.body.value["error"] == JStr("Image upload failed.")
      && Puts(h.trace) == [] && Creates(h.trace) == [] && Inserts(h.trace) == []
  {
    var h := Upload(file, actor, stored, created, urlOf);
    assert h.trace == [] + [h.trace[0]];
    ProjectOne(h.trace[0], PathOf);
    ProjectOne(h.trace[0], CreateOf);
    ProjectOne(h.trace[0], InsertOf);
  }

  /** The upload answers 201 iff validation, the store and the create all
      succeed; it then stores once and creates exactly one row owned by the
      acting user, with the client's file name, the sniffed MIME type and the url
      of the stored path, and answers with that row. Otherwise it answers 500 and
      creates no row. */
  lemma UploadOutcome(file: Option<UploadedFile>, actor: Option<nat>, stored: Result<string>, created: Result<nat>,
                      urlOf: string -> string)
    ensures var h := Upload(file, actor, stored, created, urlOf);
      h.response.status == 201 <==> SatisfiesRules(file) && stored.Ok? && created.Ok?
    ensures var h := Upload(file, actor, stored, created, urlOf);
      h.response.status == 201 ==>
        var row := ImageRow(file.value.originalName, actor, urlOf("images/" + stored.value), file.value.mimeType);
        && Puts(h.trace) == ["images/" + stored.value]
        && Creates(h.trace) == [row]
        && Inserts(h.trace) == []
        && h.response.body == Some(map["image" := RowJson(created.value, row)])
    ensures var h := Upload(file, actor, stored, created, urlOf);
      h.response.status != 201 ==>
        && h.response.status == 500
        && h.response.body.Some? && "error" in h.response.body.value
        && h.response.body.value["error"] == JStr("Image upload failed.")
        && Creates(h.trace) == [] && Inserts(h.trace) == []
  {
    var h := Upload(file, actor, stored, created, urlOf);
    FailedRuleMatchesRules(file);
    if |h.trace| == 1 {
      assert h.trace == [h.trace[0]];
      ProjectOne(h.trace[0], PathOf);
      ProjectOne(h.trace[0], CreateOf);
      ProjectOne(h.trace[0], InsertOf);
    } else {
      assert h.trace == [h.trace[0], h.trace[1]];
      ProjectTwo(h.trace[0], h.trace[1], PathOf);
      ProjectTwo(h.trace[0], h.trace[1], CreateOf);
      ProjectTwo(h.trace[0], h.trace[1], InsertOf);
    }
  }

  /** Store-then-record: the row an upload creates points at the bytes it stored
      just before. */
  lemma UploadStoresBeforeRecording(file: Option<UploadedFile>, actor: Option<nat>, stored: Result<string>,
                                    created: Result<nat>, urlOf: string -> string)
    ensures StoredBeforeRecorded(Upload(file, actor, stored, created, urlOf).trace, urlOf)
  {
    var t := Upload(file, actor, stored, created, urlOf).trace;
    if FailedRule(file).None? && stored.Ok? && created.Ok? {
      var path := UploadPath(stored.value);
      var row := ImageRow(file.value.originalName, actor, urlOf(path), file.value.mimeType);
      assert t == [Put(path), Create(row)];
      assert t[..1] == [Put(path)];
      ProjectOne(Put(path), PathOf);
      assert Backed(row, t[..1], urlOf);
      forall j, r | 0 <= j < |t| && r in RowsOf(t[j])
        ensures Backed(r, t[..j], urlOf)
      {
        assert j == 1 && r == row;
      }
    } else {
      forall j | 0 <= j < |t|
        ensures RowsOf(t[j]) == []
      {
      }
    }
  }

  // ---------------------------------------------------------------------------
  // generateImageVariations

  /** What `file_get_contents` does with one returned url: bytes, `false`, or an
      exception (the framework turns PHP warnings into exceptions). */
  datatype Download = Downloaded | ReturnedFalse | Raised(message: string)

  /** The outside world for one returned variation: its download, the `uniqid()`
      drawn for it, and what the storage `put` does. */
  datatype Variation = Variation(download: Download, uid: string, put: Outcome)

  const VariationCount: nat := 5
  const VariationSize := "1024x1024"
  const PromptPrefix := "Generate variations of this image: "
  const BillingPhrase := "Billing hard limit has been reached"
  const FallbackCount: int := 5
  const GeneratedMime := "image/png"
  const DownloadFailedPrefix := "Failed to download image from: "
  const VariationsStoredMessage := "Image variations generated and stored successfully."
  const FallbackMessage := "Billing hard limit has been reached for the given OpenAI API Key.For Demo Mocked images generation has been queued."
  const VariationFailedError := "Image variation generation failed."

  function GeneratedFilename(uid: string): string { "generated_" + uid + ".png" }

  function GeneratedPath(filename: string): string { "images/generated/" + filename }

  /** The record of a stored variation. */
  function GeneratedRow(uid: string, actor: Option<nat>, urlOf: string -> string): ImageRow
  {
    ImageRow(GeneratedFilename(uid), actor, urlOf(GeneratedPath(GeneratedFilename(uid))), GeneratedMime)
  }

  /** How far the `try` block got: the records gathered, the effects so far, and
      the message of the exception that ended it, if any. */
  datatype Attempted = Attempted(rows: seq<ImageRow>, trace: seq<Effect>, failure: Option<string>)

  /** One iteration of the `foreach` over the returned variations. */
  function StoreOne(s: Attempted, url: string, v: Variation, actor: Option<nat>, urlOf: string -> string): Attempted
  {
    match v.download
    case Raised(m) => s.(failure := Some(m))
    case ReturnedFalse => s.(failure := Some(DownloadFailedPrefix + url))
    case Downloaded =>
      var path := GeneratedPath(GeneratedFilename(v.uid));
      match v.put
      case Fail(m) => s.(failure := Some(m))
      case Pass => s.(rows := s.rows + [GeneratedRow(v.uid, actor, urlOf)], trace := s.trace + [Put(path)])
  }

  /** The `foreach` from state `s` on: it stops at the first exception. */
  function StoreAll(s: Attempted, urls: seq<string>, items: seq<Variation>, actor: Option<nat>,
                    urlOf: string -> string): Attempted
    requires |urls| == |items|
    decreases |urls|
  {
    if s.failure.Some? || urls == [] then s
    else StoreAll(StoreOne(s, urls[0], items[0], actor, urlOf), urls[1..], items[1..], actor, urlOf)
  }

  function RequestFor(image: ImageRow): Effect
  {
    RequestVariations(PromptPrefix + image.url, VariationCount, VariationSize)
  }

  /** The `try` block of `generateImageVariations`. `source` is what
      `Image::findOrFail` does, `api` what the generation API returns (the urls of
      its variations) or throws, `insert` what `Image::insert` does. */
  function TryGenerate(actor: Option<nat>, source: Result<ImageRow>, api: Result<seq<string>>, items: seq<Variation>,
                       insert: Outcome, urlOf: string -> string): Attempted
    requires api.Ok? ==> |items| == |api.value|
  {
    match source
    case Err(m) => Attempted([], [], Some(m))
    case Ok(image) =>
      match api
      case Err(m) => Attempted([], [RequestFor(image)], Some(m))
      case Ok(urls) => FinishTry(StoreAll(Attempted([], [RequestFor(image)], None), urls, items, actor, urlOf), insert)
  }

  /** The bulk insert after the `foreach`. */
  function FinishTry(s: Attempted, insert: Outcome): Attempted
  {
    if s.failure.Some? || s.rows == [] then s  // inserting an empty list issues no query
    else match insert
      case Fail(m) => s.(failure := Some(m))
      case Pass => s.(trace := s.trace + [Insert(s.rows)])
  }

  /** `array_column($generatedImages, 'url')`. */
  function UrlsOf(rows: seq<ImageRow>): seq<Json>
  {
    seq(|rows|, j requires 0 <= j < |rows| => JStr(rows[j].url))
  }

  function SuccessBody(variations: seq<Json>, message: string): map<string, Json>
  {
    map["success" := JBool(true), "variations" := JList(variations), "message" := JStr(message)]
  }

  function FailureBody(message: string): map<string, Json>
  {
    map["success" := JBool(false), "error" := JStr(VariationFailedError), "message" := JStr(message)]
  }

  /** `generateImageVariations`: the `try` block, then the `catch` that queues the
      mock-image job when the message contains the billing phrase. */
  function GenerateVariations(actor: Option<nat>, source: Result<ImageRow>, api: Result<seq<string>>,
                              items: seq<Variation>, insert: Outcome, urlOf: string -> string): Handled
    requires api.Ok? ==> |items| == |api.value|
  {
    var a := TryGenerate(actor, source, api, items, insert, urlOf);
    match a.failure
    case None => Handled(Response(200, Some(SuccessBody(UrlsOf(a.rows), VariationsStoredMessage))), a.trace)
    case Some(m) =>
      var logged := a.trace + [LogError("Image variation generation failed: " + m)];
      if Contains(m, BillingPhrase) then
        Handled(Response(200, Some(SuccessBody([], FallbackMessage))), logged + [Dispatch(FallbackCount)])
      else
        Handled(Response(500, Some(FailureBody(m))), logged)
  }

  /** The action itself, with its `foreach` loop and its early `throw`s. */
  method GenerateImageVariations(actor: Option<nat>, source: Result<ImageRow>, api: Result<seq<string>>,
                                 items: seq<Variation>, insert: Outcome, urlOf: string -> string)
    returns (h: Handled)
    requires api.Ok? ==> |items| == |api.value|
    ensures h == GenerateVariations(actor, source, api, items, insert, urlOf)
  {
    var generated: seq<ImageRow> := [];
    var trace: seq<Effect> := [];
    var failure: Option<string> := None;
    if source.Err? {
      failure := Some(source.message);
    } else {
      var image := source.value;
      trace := trace + [RequestVariations(PromptPrefix + image.url, VariationCount, VariationSize)];
      assert trace == [RequestFor(image)];
      if api.Err? {
        failure := Some(api.message);
      } else {
        var urls := api.value;
        ghost var start := Attempted([], trace, None);
        var j := 0;
        assert urls[0..] == urls && items[0..] == items;
        while j < |urls| && failure.None?
          invariant 0 <= j <= |urls|
          invariant StoreAll(Attempted(generated, trace, failure), urls[j..], items[j..], actor, urlOf)
                 == StoreAll(start, urls, items, actor, urlOf)
        {
          var url := urls[j];
          var v := items[j];
          assert urls[j..][1..] == urls[j + 1..] && items[j..][1..] == items[j + 1..];
          if v.download.Raised? {
            failure := Some(v.download.message);
          } else if v.download.ReturnedFalse? {
            failure := Some(DownloadFailedPrefix + url);
          } else {
            var filename := GeneratedFilename(v.uid);
            var path := GeneratedPath(filename);
            if v.put.Fail? {
              failure := Some(v.put.message);
            } else {
              trace := trace + [Put(path)];
              var storedUrl := urlOf(path);
              generated := generated + [ImageRow(filename, actor, storedUrl, GeneratedMime)];
            }
          }
          j := j + 1;
        }
        assert failure.None? ==> urls[j..] == [];
        assert Attempted(generated, trace, failure) == StoreAll(start, urls, items, actor, urlOf);
        if failure.None? && generated != [] {
          if insert.Fail? {
            failure := Some(insert.message);
          } else {
            trace := trace + [Insert(generated)];
          }
        }
      }
    }
    assert Attempted(generated, trace, failure) == TryGenerate(actor, source, api, items, insert, urlOf);
    if failure.None? {
      h := Handled(Response(200, Some(SuccessBody(UrlsOf(generated), VariationsStoredMessage))), trace);
    } else {
      var m := failure.value;
      trace := trace + [LogError("Image variation generation failed: " + m)];
      if StrPos(m, BillingPhrase) != None {
        trace := trace + [Dispatch(FallbackCount)];
        h := Handled(Response(200, Some(SuccessBody([], FallbackMessage))), trace);
      } else {
        h := Handled(Response(500, Some(FailureBody(m))), trace);
      }
    }
  }

  // ---------------------------------------------------------------------------
  // What generateImageVariations writes

  predicate ItemSucceeds(v: Variation) { v.download.Downloaded? && v.put.Pass? }

  /** The index of the first variation whose download or store fails, or the
      number of variations when none does. */
  function FirstFailure(items: seq<Variation>): (k: nat)
    ensures k <= |items|
    ensures forall j :: 0 <= j < k ==> ItemSucceeds(items[j])
    ensures k < |items| ==> !ItemSucceeds(items[k])
  {
    if items == [] || !ItemSucceeds(items[0]) then 0 else 1 + FirstFailure(items[1..])
  }

  /** The message of the exception a failing variation throws. */
  function ItemFailure(url: string, v: Variation): string
    requires !ItemSucceeds(v)
  {
    match v.download
    case Raised(m) => m
    case ReturnedFalse => DownloadFailedPrefix + url
    case Downloaded => v.put.message
  }

  function GeneratedRows(items: seq<Variation>, actor: Option<nat>, urlOf: string -> string): (r: seq<ImageRow>)
    ensures |r| == |items|
  {
    if items == [] then [] else [GeneratedRow(items[0].uid, actor, urlOf)] + GeneratedRows(items[1..], actor, urlOf)
  }

  function GeneratedPaths(items: seq<Variation>): (r: seq<string>)
    ensures |r| == |items|
  {
    if items == [] then [] else [GeneratedPath(GeneratedFilename(items[0].uid))] + GeneratedPaths(items[1..])
  }

  function PutEffects(items: seq<Variation>): (r: seq<Effect>)
    ensures |r| == |items|
  {
    if items == [] then [] else [Put(GeneratedPath(GeneratedFilename(items[0].uid)))] + PutEffects(items[1..])
  }

  lemma {:induction false} PutEffectsViews(items: seq<Variation>)
    ensures Puts(PutEffects(items)) == GeneratedPaths(items)
    ensures Inserts(PutEffects(items)) == [] && Creates(PutEffects(items)) == []
    ensures Dispatches(PutEffects(items)) == [] && Requests(PutEffects(items)) == []
    decreases |items|
  {
    if items != [] {
      PutEffectsViews(items[1..]);
      assert PutEffects(items)[1..] == PutEffects(items[1..]);
    }
  }

  /** The `foreach` gathers the records of the variations before the first
      failing one. */
  lemma {:induction false} StoreAllRows(s: Attempted, urls: seq<string>, items: seq<Variation>, actor: Option<nat>,
                                        urlOf: string -> string)
    requires |urls| == |items| && s.failure.None?
    ensures StoreAll(s, urls, items, actor, urlOf).rows == s.rows + GeneratedRows(items[..FirstFailure(items)], actor, urlOf)
    decreases |urls|
  {
    var k := FirstFailure(items);
    if items == [] || !ItemSucceeds(items[0]) {
      assert items[..k] == [];
    } else {
      StoreAllRows(StoreOne(s, urls[0], items[0], actor, urlOf), urls[1..], items[1..], actor, urlOf);
      assert items[1..][..k - 1] == items[..k][1..];
    }
  }

  /** The `foreach` stores the variations before the first failing one, in order. */
  lemma {:induction false} StoreAllTrace(s: Attempted, urls: seq<string>, items: seq<Variation>, actor: Option<nat>,
                                         urlOf: string -> string)
    requires |urls| == |items| && s.failure.None?
    ensures StoreAll(s, urls, items, actor, urlOf).trace == s.trace + PutEffects(items[..FirstFailure(items)])
    decreases |urls|
  {
    var k := FirstFailure(items);
    if items == [] || !ItemSucceeds(items[0]) {
      assert items[..k] == [];
    } else {
      StoreAllTrace(StoreOne(s, urls[0], items[0], actor, urlOf), urls[1..], items[1..], actor, urlOf);
      assert items[1..][..k - 1] == items[..k][1..];
    }
  }

  /** The `foreach` ends with the exception of the first failing variation. */
  lemma {:induction false} StoreAllFailure(s: Attempted, urls: seq<string>, items: seq<Variation>, actor: Option<nat>,
                                           urlOf: string -> string)
    requires |urls| == |items| && s.failure.None?
    ensures var k := FirstFailure(items);
      StoreAll(s, urls, items, actor, urlOf).failure == (if k == |items| then None else Some(ItemFailure(urls[k], items[k])))
    decreases |urls|
  {
    var k := FirstFailure(items);
    if items != [] && ItemSucceeds(items[0]) {
      StoreAllFailure(StoreOne(s, urls[0], items[0], actor, urlOf), urls[1..], items[1..], actor, urlOf);
      if k < |items| {
        assert items[1..][k - 1] == items[k] && urls[1..][k - 1] == urls[k];
      }
    }
  }

  /** The single bulk insert, when there is one. */
  function InsertEffects(inserted: bool, rows: seq<ImageRow>): seq<Effect>
  {
    if inserted then [Insert(rows)] else []
  }

  /** The records the `try` block gathers after a successful lookup and API
      call, and whether it ends without an exception: only when every variation
      was stored and, if there was any, the insert went through. */
  lemma TryGenerateOutcome(actor: Option<nat>, image: ImageRow, urls: seq<string>, items: seq<Variation>,
                           insert: Outcome, urlOf: string -> string)
    requires |items| == |urls|
    ensures var a := TryGenerate(actor, Ok(image), Ok(urls), items, insert, urlOf);
      a.rows == GeneratedRows(items[..FirstFailure(items)], actor, urlOf)
    ensures var a := TryGenerate(actor, Ok(image), Ok(urls), items, insert, urlOf);
      a.failure.None? <==> FirstFailure(items) == |items| && (|items| == 0 || insert.Pass?)
  {
    var k := FirstFailure(items);
    var s0 := Attempted([], [RequestFor(image)], None);
    StoreAllRows(s0, urls, items, actor, urlOf);
    StoreAllFailure(s0, urls, items, actor, urlOf);
    FinishTryEffect(StoreAll(s0, urls, items, actor, urlOf), insert);
  }

  /** The effects of the `try` block after a successful lookup and API call: the
      request, one store per variation before the first failure, then the
      insert if all variations were stored and there was at least one. */
  lemma TryGenerateEffect(actor: Option<nat>, image: ImageRow, urls: seq<string>, items: seq<Variation>,
                          insert: Outcome, urlOf: string -> string)
    requires |items| == |urls|
    ensures var a := TryGenerate(actor, Ok(image), Ok(urls), items, insert, urlOf);
      var k := FirstFailure(items);
      a.trace == [RequestFor(image)] + PutEffects(items[..k]) + InsertEffects(k == |items| && k > 0 && insert.Pass?, a.rows)
  {
    var k := FirstFailure(items);
    var s0 := Attempted([], [RequestFor(image)], None);
    StoreAllRows(s0, urls, items, actor, urlOf);
    StoreAllTrace(s0, urls, items, actor, urlOf);
    StoreAllFailure(s0, urls, items, actor, urlOf);
    var s := StoreAll(s0, urls, items, actor, urlOf);
    assert |s.rows| == k;
    FinishTryEffect(s, insert);
  }

  lemma FinishTryEffect(s: Attempted, insert: Outcome)
    ensures FinishTry(s, insert).rows == s.rows
    ensures FinishTry(s, insert).trace
         == s.trace + InsertEffects(s.failure.None? && s.rows != [] && insert.Pass?, s.rows)
    ensures FinishTry(s, insert).failure.None? <==> s.failure.None? && (s.rows == [] || insert.Pass?)
  {
    if !(s.failure.None? && s.rows != [] && insert.Pass?) {
      assert s.trace + [] == s.trace;
    }
  }

  /** What the `catch` block adds to the trace: the error log and, when the
      message names the billing limit, the queued mock-image job. */
  function CatchEffects(failure: Option<string>): seq<Effect>
  {
    match failure
    case None => []
    case Some(m) =>
      [LogError("Image variation generation failed: " + m)]
        + (if Contains(m, BillingPhrase) then [Dispatch(FallbackCount)] else [])
  }

  predicate Billing(failure: Option<string>) { failure.Some? && Contains(failure.value, BillingPhrase) }

  lemma GenerateVariationsTrace(actor: Option<nat>, source: Result<ImageRow>, api: Result<seq<string>>,
                                items: seq<Variation>, insert: Outcome, urlOf: string -> string)
    requires api.Ok? ==> |items| == |api.value|
    ensures var a := TryGenerate(actor, source, api, items, insert, urlOf);
      GenerateVariations(actor, source, api, items, insert, urlOf).trace == a.trace + CatchEffects(a.failure)
  {
    var a := TryGenerate(actor, source, api, items, insert, urlOf);
    if a.failure.None? {
      assert a.trace + [] == a.trace;
    }
  }

  /** The `catch` block stores nothing, writes no row, calls no API, and queues
      the five mock images exactly on the billing error. */
  lemma {:induction false} CatchEffectsViews(failure: Option<string>)
    ensures Puts(CatchEffects(failure)) == [] && Inserts(CatchEffects(failure)) == []
    ensures Creates(CatchEffects(failure)) == [] && Requests(CatchEffects(failure)) == []
    ensures Dispatches(CatchEffects(failure)) == (if Billing(failure) then [FallbackCount] else [])
  {
    var c := CatchEffects(failure);
    if |c| == 1 {
      ProjectOne(c[0], PathOf);
      ProjectOne(c[0], InsertOf);
      ProjectOne(c[0], CreateOf);
      ProjectOne(c[0], RequestOf);
      ProjectOne(c[0], DispatchOf);
    } else if |c| == 2 {
      ProjectTwo(c[0], c[1], PathOf);
      ProjectTwo(c[0], c[1], InsertOf);
      ProjectTwo(c[0], c[1], CreateOf);
      ProjectTwo(c[0], c[1], RequestOf);
      ProjectTwo(c[0], c[1], DispatchOf);
    }
  }

  lemma {:induction false} InsertEffectsViews(inserted: bool, rows: seq<ImageRow>)
    ensures Puts(InsertEffects(inserted, rows)) == [] && Creates(InsertEffects(inserted, rows)) == []
    ensures Requests(InsertEffects(inserted, rows)) == [] && Dispatches(InsertEffects(inserted, rows)) == []
    ensures Inserts(InsertEffects(inserted, rows)) == (if inserted then [rows] else [])
  {
    if inserted {
      ProjectOne(Insert(rows), PathOf);
      ProjectOne(Insert(rows), CreateOf);
      ProjectOne(Insert(rows), RequestOf);
      ProjectOne(Insert(rows), DispatchOf);
      ProjectOne(Insert(rows), InsertOf);
    }
  }

  /** The whole trace after a successful lookup and API call, in four parts. */
  lemma VariationTraceParts(actor: Option<nat>, image: ImageRow, urls: seq<string>, items: seq<Variation>,
                            insert: Outcome, urlOf: string -> string)
    requires |items| == |urls|
    ensures var h := GenerateVariations(actor, Ok(image), Ok(urls), items, insert, urlOf);
      var a := TryGenerate(actor, Ok(image), Ok(urls), items, insert, urlOf);
      var k := FirstFailure(items);
      h.trace == [RequestFor(image)] + PutEffects(items[..k]) + InsertEffects(k == |items| > 0 && insert.Pass?, a.rows)
                 + CatchEffects(a.failure)
  {
    TryGenerateEffect(actor, image, urls, items, insert, urlOf);
    GenerateVariationsTrace(actor, Ok(image), Ok(urls), items, insert, urlOf);
  }

  /** After a successful lookup and API call, the paths stored are those of the
      variations before the first failure, and the table gets one insert of all
      `k` records exactly when all `k > 0` variations were stored and the insert
      succeeded; the API is called once, with the source url, for five
      1024x1024 images. */
  lemma VariationWrites(actor: Option<nat>, image: ImageRow, urls: seq<string>, items: seq<Variation>,
                        insert: Outcome, urlOf: string -> string)
    requires |items| == |urls|
    ensures var h := GenerateVariations(actor, Ok(image), Ok(urls), items, insert, urlOf);
      Puts(h.trace) == GeneratedPaths(items[..FirstFailure(items)])
    ensures var h := GenerateVariations(actor, Ok(image), Ok(urls), items, insert, urlOf);
      Inserts(h.trace) == (if FirstFailure(items) == |items| > 0 && insert.Pass? then [GeneratedRows(items, actor, urlOf)] else [])
    ensures var h := GenerateVariations(actor, Ok(image), Ok(urls), items, insert, urlOf);
      Creates(h.trace) == []
    ensures var h := GenerateVariations(actor, Ok(image), Ok(urls), items, insert, urlOf);
      Requests(h.trace) == [RequestVariations(PromptPrefix + image.url, 5, "1024x1024")]
  {
    var a := TryGenerate(actor, Ok(image), Ok(urls), items, insert, urlOf);
    var k := FirstFailure(items);
    VariationTraceParts(actor, image, urls, items, insert, urlOf);
    TryGenerateOutcome(actor, image, urls, items, insert, urlOf);
    assert k == |items| ==> items[..k] == items;
    PartsPuts([RequestFor(image)], items[..k], k == |items| > 0 && insert.Pass?, a.rows, a.failure);
    PartsRows([RequestFor(image)], items[..k], k == |items| > 0 && insert.Pass?, a.rows, a.failure);
    PartsCalls([RequestFor(image)], items[..k], k == |items| > 0 && insert.Pass?, a.rows, a.failure);
  }

  /** The paths a failed or finished generation stores. */
  lemma PartsPuts(head: seq<Effect>, stored: seq<Variation>, inserted: bool, rows: seq<ImageRow>, failure: Option<string>)
    requires forall e :: e in head ==> e.RequestVariations?
    ensures Puts(head + PutEffects(stored) + InsertEffects(inserted, rows) + CatchEffects(failure)) == GeneratedPaths(stored)
  {
    RequestsOnly(head);
    PutEffectsViews(stored);
    InsertEffectsViews(inserted, rows);
    CatchEffectsViews(failure);
    ViewsOfFour(head, PutEffects(stored), InsertEffects(inserted, rows), CatchEffects(failure), PathOf);
  }

  /** The rows a failed or finished generation writes: one insert at most, and no create. */
  lemma PartsRows(head: seq<Effect>, stored: seq<Variation>, inserted: bool, rows: seq<ImageRow>, failure: Option<string>)
    requires forall e :: e in head ==> e.RequestVariations?
    ensures var t := head + PutEffects(stored) + InsertEffects(inserted, rows) + CatchEffects(failure);
      Inserts(t) == (if inserted then [rows] else []) && Creates(t) == []
  {
    RequestsOnly(head);
    PutEffectsViews(stored);
    InsertEffectsViews(inserted, rows);
    CatchEffectsViews(failure);
    ViewsOfFour(head, PutEffects(stored), InsertEffects(inserted, rows), CatchEffects(failure), InsertOf);
    ViewsOfFour(head, PutEffects(stored), InsertEffects(inserted, rows), CatchEffects(failure), CreateOf);
  }

  /** The API calls and queued jobs of a failed or finished generation. */
  lemma PartsCalls(head: seq<Effect>, stored: seq<Variation>, inserted: bool, rows: seq<ImageRow>, failure: Option<string>)
    requires forall e :: e in head ==> e.RequestVariations?
    ensures var t := head + PutEffects(stored) + InsertEffects(inserted, rows) + CatchEffects(failure);
      && Requests(t) == head
      && Dispatches(t) == (if Billing(failure) then [FallbackCount] else [])
  {
    RequestsOnly(head);
    PutEffectsViews(stored);
    InsertEffectsViews(inserted, rows);
    CatchEffectsViews(failure);
    ViewsOfFour(head, PutEffects(stored), InsertEffects(inserted, rows), CatchEffects(failure), RequestOf);
    ViewsOfFour(head, PutEffects(stored), InsertEffects(inserted, rows), CatchEffects(failure), DispatchOf);
  }

  lemma {:induction false} RequestsOnly(head: seq<Effect>)
    requires forall e :: e in head ==> e.RequestVariations?
    ensures Requests(head) == head && Dispatches(head) == []
    ensures Puts(head) == [] && Inserts(head) == [] && Creates(head) == []
    decreases |head|
  {
    if head != [] {
      assert head[0] in head;
      assert forall e :: e in head[1..] ==> e in head;
      RequestsOnly(head[1..]);
      assert head == [head[0]] + head[1..];
    }
  }

  /** The exception that ends the `try` block after a successful lookup and API
      call: that of the first failing variation, else that of the insert, which
      is only issued when there is something to insert. */
  function GenerationFailure(urls: seq<string>, items: seq<Variation>, insert: Outcome): Option<string>
    requires |urls| == |items|
  {
    var k := FirstFailure(items);
    if k < |items| then Some(ItemFailure(urls[k], items[k]))
    else if k > 0 && insert.Fail? then Some(insert.message)
    else None
  }

  lemma TryGenerateFailure(actor: Option<nat>, image: ImageRow, urls: seq<string>, items: seq<Variation>,
                           insert: Outcome, urlOf: string -> string)
    requires |items| == |urls|
    ensures TryGenerate(actor, Ok(image), Ok(urls), items, insert, urlOf).failure == GenerationFailure(urls, items, insert)
  {
    var s0 := Attempted([], [RequestFor(image)], None);
    StoreAllRows(s0, urls, items, actor, urlOf);
    StoreAllFailure(s0, urls, items, actor, urlOf);
    assert |StoreAll(s0, urls, items, actor, urlOf).rows| == FirstFailure(items);
    FinishTryEffect(StoreAll(s0, urls, items, actor, urlOf), insert);
  }

  /** The answer of `generateImageVariations` after a successful lookup and API
      call, and the job it queues: success when nothing failed; on any
      exception, the fallback answer and one queued job of five mock images
      exactly when the message names the billing limit, error 500 otherwise. */
  lemma VariationOutcome(actor: Option<nat>, image: ImageRow, urls: seq<string>, items: seq<Variation>,
                         insert: Outcome, urlOf: string -> string)
    requires |items| == |urls|
    ensures var h := GenerateVariations(actor, Ok(image), Ok(urls), items, insert, urlOf);
      h.response == match GenerationFailure(urls, items, insert)
        case None => Response(200, Some(SuccessBody(UrlsOf(GeneratedRows(items, actor, urlOf)), VariationsStoredMessage)))
        case Some(m) =>
          if Contains(m, BillingPhrase) then Response(200, Some(SuccessBody([], FallbackMessage)))
          else Response(500, Some(FailureBody(m)))
    ensures var h := GenerateVariations(actor, Ok(image), Ok(urls), items, insert, urlOf);
      Dispatches(h.trace) == (if Billing(GenerationFailure(urls, items, insert)) then [5] else [])
  {
    var a := TryGenerate(actor, Ok(image), Ok(urls), items, insert, urlOf);
    var k := FirstFailure(items);
    TryGenerateFailure(actor, image, urls, items, insert, urlOf);
    TryGenerateOutcome(actor, image, urls, items, insert, urlOf);
    VariationTraceParts(actor, image, urls, items, insert, urlOf);
    assert k == |items| ==> items[..k] == items;
    PartsCalls([RequestFor(image)], items[..k], k == |items| > 0 && insert.Pass?, a.rows, a.failure);
  }

  lemma {:induction false} GeneratedRowsAt(items: seq<Variation>, actor: Option<nat>, urlOf: string -> string, j: nat)
    requires j < |items|
    ensures GeneratedRows(items, actor, urlOf)[j] == GeneratedRow(items[j].uid, actor, urlOf)
    ensures GeneratedPaths(items)[j] == GeneratedPath(GeneratedFilename(items[j].uid))
    decreases j
  {
    if j > 0 {
      GeneratedRowsAt(items[1..], actor, urlOf, j - 1);
    }
  }

  /** Every variation downloads and stores, and the insert, if issued, goes through. */
  predicate AllSucceed(items: seq<Variation>, insert: Outcome)
  {
    (forall j :: 0 <= j < |items| ==> items[j].download.Downloaded? && items[j].put.Pass?)
    && (|items| > 0 ==> insert.Pass?)
  }

  /** When nothing fails the action answers 200 with one url per returned
      variation, each the url of that variation's stored `generated_<uid>.png`. */
  lemma VariationsSucceed(actor: Option<nat>, image: ImageRow, urls: seq<string>, items: seq<Variation>,
                          insert: Outcome, urlOf: string -> string)
    requires |items| == |urls| && AllSucceed(items, insert)
    ensures var h := GenerateVariations(actor, Ok(image), Ok(urls), items, insert, urlOf);
      && h.response.status == 200
      && h.response.body.Some?
      && h.response.body.value["success"] == JBool(true)
      && h.response.body.value["message"] == JStr(VariationsStoredMessage)
      && h.response.body.value["variations"].JList?
      && |h.response.body.value["variations"].items| == |urls|
      && (forall j :: 0 <= j < |urls| ==>
            h.response.body.value["variations"].items[j] == JStr(urlOf(GeneratedPath(GeneratedFilename(items[j].uid)))))
  {
    var k := FirstFailure(items);
    assert k == |items|;
    VariationOutcome(actor, image, urls, items, insert, urlOf);
    var vs := UrlsOf(GeneratedRows(items, actor, urlOf));
    forall j | 0 <= j < |urls|
      ensures vs[j] == JStr(urlOf(GeneratedPath(GeneratedFilename(items[j].uid))))
    {
      GeneratedRowsAt(items, actor, urlOf, j);
    }
  }

  /** When nothing fails every variation is stored, all the records go into
      the table in one query (none when the API returned no variation), and no
      job is queued. */
  lemma VariationsSucceedWrites(actor: Option<nat>, image: ImageRow, urls: seq<string>, items: seq<Variation>,
                                insert: Outcome, urlOf: string -> string)
    requires |items| == |urls| && AllSucceed(items, insert)
    ensures var h := GenerateVariations(actor, Ok(image), Ok(urls), items, insert, urlOf);
      && Inserts(h.trace) == (if |items| > 0 then [GeneratedRows(items, actor, urlOf)] else [])
      && Puts(h.trace) == GeneratedPaths(items)
      && Dispatches(h.trace) == []
  {
    var k := FirstFailure(items);
    assert k == |items|;
    assert items[..k] == items;
    VariationOutcome(actor, image, urls, items, insert, urlOf);
    VariationWrites(actor, image, urls, items, insert, urlOf);
  }

  /** A variation that fails to download or store stops the loop: only the
      variations before it are stored, and no record is written at all. */
  lemma VariationFailureWritesNothing(actor: Option<nat>, image: ImageRow, urls: seq<string>, items: seq<Variation>,
                                      insert: Outcome, urlOf: string -> string, j: nat)
    requires |items| == |urls| && j < |items|
    requires !ItemSucceeds(items[j])
    ensures var h := GenerateVariations(actor, Ok(image), Ok(urls), items, insert, urlOf);
      && Inserts(h.trace) == [] && Creates(h.trace) == []
      && |Puts(h.trace)| <= j
      && h.response.body.Some?
      && (h.response.status == 500 || h.response.body == Some(SuccessBody([], FallbackMessage)))
  {
    VariationWrites(actor, image, urls, items, insert, urlOf);
    VariationOutcome(actor, image, urls, items, insert, urlOf);
  }

  /** A failed lookup or API call stores nothing and writes no record; it calls
      the API only when the lookup succeeded, and answers as `catch` does. */
  lemma LookupOrApiFailure(actor: Option<nat>, source: Result<ImageRow>, api: Result<seq<string>>, items: seq<Variation>,
                           insert: Outcome, urlOf: string -> string)
    requires source.Err? || api.Err?
    requires api.Ok? ==> |items| == |api.value|
    ensures var m := if source.Err? then source.message else api.message;
      var h := GenerateVariations(actor, source, api, items, insert, urlOf);
      && Puts(h.trace) == [] && Inserts(h.trace) == [] && Creates(h.trace) == []
      && Requests(h.trace) == (if source.Ok? then [RequestVariations(PromptPrefix + source.value.url, 5, "1024x1024")] else [])
      && Dispatches(h.trace) == (if Contains(m, BillingPhrase) then [5] else [])
      && h.response == (if Contains(m, BillingPhrase) then Response(200, Some(SuccessBody([], FallbackMessage)))
                        else Response(500, Some(FailureBody(m))))
  {
    var m := if source.Err? then source.message else api.message;
    var head: seq<Effect> := if source.Ok? then [RequestFor(source.value)] else [];
    var a := TryGenerate(actor, source, api, items, insert, urlOf);
    assert a.trace == head && a.failure == Some(m);
    GenerateVariationsTrace(actor, source, api, items, insert, urlOf);
    var none: seq<Variation> := [];
    assert head == head + PutEffects(none) + InsertEffects(false, []);
    PartsPuts(head, none, false, [], Some(m));
    PartsRows(head, none, false, [], Some(m));
    PartsCalls(head, none, false, [], Some(m));
  }

  /** An API error whose message embeds the billing phrase queues the five mock
      images and answers 200 with the fallback message. */
  lemma BillingErrorQueuesMockImages(actor: Option<nat>, image: ImageRow, before: string, after: string,
                                     items: seq<Variation>, insert: Outcome, urlOf: string -> string)
    ensures var h := GenerateVariations(actor, Ok(image), Err(before + BillingPhrase + after), items, insert, urlOf);
      && Dispatches(h.trace) == [5]
      && h.response == Response(200, Some(SuccessBody([], FallbackMessage)))
  {
    ContainsEmbedded(before, BillingPhrase, after);
    LookupOrApiFailure(actor, Ok(image), Err(before + BillingPhrase + after), items, insert, urlOf);
  }

  lemma {:induction false} GeneratedRowsBacked(items: seq<Variation>, actor: Option<nat>, urlOf: string -> string)
    ensures forall row :: row in GeneratedRows(items, actor, urlOf) ==>
              exists p :: p in GeneratedPaths(items) && urlOf(p) == row.url
    decreases |items|
  {
    if items != [] {
      GeneratedRowsBacked(items[1..], actor, urlOf);
      var p0 := GeneratedPath(GeneratedFilename(items[0].uid));
      assert p0 in GeneratedPaths(items);
      assert forall p :: p in GeneratedPaths(items[1..]) ==> p in GeneratedPaths(items);
    }
  }

  /** Store-then-record: every record `generateImageVariations` inserts points at
      bytes it stored earlier in the same request. */
  lemma VariationsStoreBeforeRecording(actor: Option<nat>, source: Result<ImageRow>, api: Result<seq<string>>,
                                       items: seq<Variation>, insert: Outcome, urlOf: string -> string)
    requires api.Ok? ==> |items| == |api.value|
    ensures StoredBeforeRecorded(GenerateVariations(actor, source, api, items, insert, urlOf).trace, urlOf)
  {
    var h := GenerateVariations(actor, source, api, items, insert, urlOf);
    assert StoredBeforeRecorded([], urlOf);
    if source.Err? || api.Err? {
      LookupOrApiFailure(actor, source, api, items, insert, urlOf);
      StoredBeforeRecordedNoWrites([], h.trace, urlOf);
      assert [] + h.trace == h.trace;
    } else {
      GeneratedStoreBeforeRecording(actor, source.value, api.value, items, insert, urlOf);
    }
  }

  lemma GeneratedStoreBeforeRecording(actor: Option<nat>, image: ImageRow, urls: seq<string>, items: seq<Variation>,
                                      insert: Outcome, urlOf: string -> string)
    requires |items| == |urls|
    ensures StoredBeforeRecorded(GenerateVariations(actor, Ok(image), Ok(urls), items, insert, urlOf).trace, urlOf)
  {
    var a := TryGenerate(actor, Ok(image), Ok(urls), items, insert, urlOf);
    var k := FirstFailure(items);
    var inserted := k == |items| > 0 && insert.Pass?;
    VariationTraceParts(actor, image, urls, items, insert, urlOf);
    TryGenerateOutcome(actor, image, urls, items, insert, urlOf);
    var written := [RequestFor(image)] + PutEffects(items[..k]) + InsertEffects(inserted, a.rows);
    if inserted {
      assert items[..k] == items;
      InsertStoresBeforeRecording(image, items, actor, urlOf);
    } else {
      HeadStoresBeforeRecording(image, items[..k], urlOf);
      assert written == [RequestFor(image)] + PutEffects(items[..k]);
    }
    CatchEffectsViews(a.failure);
    StoredBeforeRecordedNoWrites(written, CatchEffects(a.failure), urlOf);
  }

  /** The request and the stores that follow it write no row. */
  lemma HeadStoresBeforeRecording(image: ImageRow, stored: seq<Variation>, urlOf: string -> string)
    ensures StoredBeforeRecorded([RequestFor(image)] + PutEffects(stored), urlOf)
  {
    var head := [RequestFor(image)];
    RequestsOnly(head);
    PutEffectsViews(stored);
    ProjectAppend(head, PutEffects(stored), InsertOf);
    ProjectAppend(head, PutEffects(stored), CreateOf);
    assert StoredBeforeRecorded([], urlOf);
    StoredBeforeRecordedNoWrites([], head + PutEffects(stored), urlOf);
    assert [] + (head + PutEffects(stored)) == head + PutEffects(stored);
  }

  /** The bulk insert after all variations were stored writes rows backed by those stores. */
  lemma InsertStoresBeforeRecording(image: ImageRow, items: seq<Variation>, actor: Option<nat>, urlOf: string -> string)
    ensures StoredBeforeRecorded([RequestFor(image)] + PutEffects(items) + [Insert(GeneratedRows(items, actor, urlOf))], urlOf)
  {
    var head := [RequestFor(image)];
    var stored := head + PutEffects(items);
    HeadStoresBeforeRecording(image, items, urlOf);
    GeneratedRowsBacked(items, actor, urlOf);
    RequestsOnly(head);
    PutEffectsViews(items);
    ProjectAppend(head, PutEffects(items), PathOf);
    StoredBeforeRecordedSnoc(stored, Insert(GeneratedRows(items, actor, urlOf)), urlOf);
  }

  /** A view of a trace made of four parts. */
  lemma ViewsOfFour<U>(t1: seq<Effect>, t2: seq<Effect>, t3: seq<Effect>, t4: seq<Effect>, f: Effect -> Option<U>)
    ensures Project(t1 + t2 + t3 + t4, f) == Project(t1, f) + Project(t2, f) + Project(t3, f) + Project(t4, f)
  {
    ProjectAppend(t1, t2, f);
    ProjectAppend(t1 + t2, t3, f);
    ProjectAppend(t1 + t2 + t3, t4, f);
  }

  // ---------------------------------------------------------------------------
  // getUserImages

  /** `Image::all(['id', 'filename', 'url'])` for one row. */
  function Summary(img: StoredImage): Json
  {
    JObject(map["id" := JInt(img.id), "filename" := JStr(img.row.filename), "url" := JStr(img.row.url)])
  }

  /** `getUserImages`: every row of the table, in table order, projected to its
      id, filename and url, whoever owns it. */
  function GetUserImages(table: seq<StoredImage>): (r: Response)
    ensures r.status == 200 && r.body.Some? && r.body.value.Keys == {"images"}
    ensures r.body.value["images"].JList? && |r.body.value["images"].items| == |table|
    ensures forall j :: 0 <= j < |table| ==>
      var item := r.body.value["images"].items[j];
      && item.JObject? && item.fields.Keys == {"id", "filename", "url"}
      && item.fields["id"] == JInt(table[j].id)
      && item.fields["filename"] == JStr(table[j].row.filename)
      && item.fields["url"] == JStr(table[j].row.url)
  {
    Response(200, Some(map["images" := JList(seq(|table|, j requires 0 <= j < |table| => Summary(table[j])))]))
  }

  /** The `images` list of the listing. */
  function Listed(table: seq<StoredImage>): seq<Json>
  {
    GetUserImages(table).body.value["images"].items
  }

  /** The listing's entry for the row with `id`. */
  function Entry(id: nat, filename: string, url: string): Json
  {
    JObject(map["id" := JInt(id), "filename" := JStr(filename), "url" := JStr(url)])
  }

  /** The listing holds one entry per row, in table order. */
  lemma ListedRows(table: seq<StoredImage>)
    ensures |Listed(table)| == |table|
    ensures forall j :: 0 <= j < |table| ==> Listed(table)[j] == Entry(table[j].id, table[j].row.filename, table[j].row.url)
  {
  }

  /** Adding rows to the table keeps the listing's old entries and appends one
      entry per row. */
  lemma ListingGrows(table: seq<StoredImage>, rows: seq<ImageRow>)
    ensures var after := Listed(table + Numbered(rows, |table| + 1));
      && |after| == |table| + |rows|
      && after[..|table|] == Listed(table)
      && forall j :: 0 <= j < |rows| ==> after[|table| + j] == Entry(|table| + 1 + j, rows[j].filename, rows[j].url)
  {
    var t := table + Numbered(rows, |table| + 1);
    ListedRows(t);
    ListingKeepsOld(table, t);
    forall j | 0 <= j < |rows|
      ensures Listed(t)[|table| + j] == Entry(|table| + 1 + j, rows[j].filename, rows[j].url)
    {
      ListingNewEntry(table, rows, j);
    }
  }

  /** The entry of the `j`-th added row carries the id the table gave it. */
  lemma ListingNewEntry(table: seq<StoredImage>, rows: seq<ImageRow>, j: nat)
    requires j < |rows|
    ensures |table| + j < |Listed(table + Numbered(rows, |table| + 1))|
    ensures Listed(table + Numbered(rows, |table| + 1))[|table| + j] == Entry(|table| + 1 + j, rows[j].filename, rows[j].url)
  {
    var t := table + Numbered(rows, |table| + 1);
    ListedRows(t);
    assert t[|table| + j] == StoredImage(|table| + 1 + j, rows[j]);
  }

  /** A table that extends another lists its entries first. */
  lemma ListingKeepsOld(table: seq<StoredImage>, t: seq<StoredImage>)
    requires |table| <= |t| && t[..|table|] == table
    ensures |table| <= |Listed(t)| && Listed(t)[..|table|] == Listed(table)
  {
    ListedRows(t);
    ListedRows(table);
    assert forall j :: 0 <= j < |table| ==> t[j] == table[j];
  }

  /** A successful upload adds one entry to the listing, with the client's file
      name and the url of the stored file; a failed one leaves the table as it
      was. */
  lemma UploadThenList(table: seq<StoredImage>, file: Option<UploadedFile>, actor: Option<nat>, stored: Result<string>,
                       created: Result<nat>, urlOf: string -> string)
    ensures var h := Upload(file, actor, stored, created, urlOf);
      h.response.status != 201 ==> Persist(table, h.trace) == table
    ensures var h := Upload(file, actor, stored, created, urlOf);
      h.response.status == 201 ==>
        var after := Listed(Persist(table, h.trace));
        && |after| == |table| + 1
        && after[..|table|] == Listed(table)
        && after[|table|] == Entry(|table| + 1, file.value.originalName, urlOf("images/" + stored.value))
  {
    var h := Upload(file, actor, stored, created, urlOf);
    UploadOutcome(file, actor, stored, created, urlOf);
    if h.response.status == 201 {
      var row := ImageRow(file.value.originalName, actor, urlOf("images/" + stored.value), file.value.mimeType);
      assert h.trace == [Put("images/" + stored.value)] + [Create(row)];
      PersistAppend(table, [Put("images/" + stored.value)], [Create(row)]);
      PersistOne(table, Put("images/" + stored.value));
      assert table + Numbered([], |table| + 1) == table;
      PersistOne(table, Create(row));
      ListingGrows(table, [row]);
    } else {
      PersistNoWrites(table, h.trace);
    }
  }

  /** Any failure of `generateImageVariations` leaves the table as it was. */
  lemma FailedGenerationKeepsTable(table: seq<StoredImage>, actor: Option<nat>, source: Result<ImageRow>,
                                   api: Result<seq<string>>, items: seq<Variation>, insert: Outcome, urlOf: string -> string)
    requires api.Ok? ==> |items| == |api.value|
    requires source.Err? || api.Err? || GenerationFailure(api.value, items, insert).Some?
    ensures Persist(table, GenerateVariations(actor, source, api, items, insert, urlOf).trace) == table
  {
    var h := GenerateVariations(actor, source, api, items, insert, urlOf);
    if source.Err? || api.Err? {
      LookupOrApiFailure(actor, source, api, items, insert, urlOf);
    } else {
      VariationWrites(actor, source.value, api.value, items, insert, urlOf);
    }
    PersistNoWrites(table, h.trace);
  }

  /** A generation in which nothing fails adds one entry per returned
      variation to the listing, in order: its `generated_<uid>.png` name and the
      url of the stored file. */
  lemma GenerationThenList(table: seq<StoredImage>, actor: Option<nat>, image: ImageRow, urls: seq<string>,
                           items: seq<Variation>, insert: Outcome, urlOf: string -> string)
    requires |items| == |urls| && AllSucceed(items, insert)
    ensures var h := GenerateVariations(actor, Ok(image), Ok(urls), items, insert, urlOf);
      var after := Listed(Persist(table, h.trace));
      && |after| == |table| + |items|
      && after[..|table|] == Listed(table)
      && forall j :: 0 <= j < |items| ==>
           after[|table| + j] == Entry(|table| + 1 + j, GeneratedFilename(items[j].uid),
                                       urlOf(GeneratedPath(GeneratedFilename(items[j].uid))))
  {
    var h := GenerateVariations(actor, Ok(image), Ok(urls), items, insert, urlOf);
    var rows := GeneratedRows(items, actor, urlOf);
    VariationsSucceedWrites(actor, image, urls, items, insert, urlOf);
    VariationWrites(actor, image, urls, items, insert, urlOf);
    if items == [] {
      PersistNoWrites(table, h.trace);
      assert table + Numbered(rows, |table| + 1) == table;
    } else {
      PersistSingleInsert(table, h.trace, rows);
    }
    ListingGrows(table, rows);
    forall j | 0 <= j < |items|
      ensures rows[j].filename == GeneratedFilename(items[j].uid)
      ensures rows[j].url == urlOf(GeneratedPath(GeneratedFilename(items[j].uid)))
    {
      GeneratedRowsAt(items, actor, urlOf, j);
    }
  }
}
