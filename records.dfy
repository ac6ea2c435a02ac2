/**
 The values the backend passes around: the image record of the `user_images`
 table, the JSON values its responses carry, HTTP responses, and the outcome of
 a call into an external service (storage, database, HTTP, the generation API)
 that may throw.
 */
module Records {

  datatype Option<+T> = None | Some(value: T)

  /** The outcome of an external call that returns a value or throws an exception
      carrying a message. */
  datatype Result<+T> = Ok(value: T) | Err(message: string)

  /** The outcome of an external call that returns nothing or throws. */
  datatype Outcome = Pass | Fail(message: string)

  /** JSON values as the framework encodes PHP arrays and scalars. */
  datatype Json =
    | JNull
    | JBool(b: bool)
    | JInt(i: int)
    | JStr(s: string)
    | JList(items: seq<Json>)
    | JObject(fields: map<string, Json>)

  /** The four fillable columns of an `Image` row. `userId` is `None` where the
      acting user's id is PHP `null`. */
  datatype ImageRow = ImageRow(filename: string, userId: Option<nat>, url: string, mimeType: string)

  /** A persisted row together with the id the database gave it. */
  datatype StoredImage = StoredImage(id: nat, row: ImageRow)

  /** An HTTP response: its status and its body as the decoded JSON object.
      `body == None` stands for content that decodes to `null`. */
  datatype Response = Response(status: int, body: Option<map<string, Json>>)

  function UserIdJson(u: Option<nat>): Json
  {
    match u
    case None => JNull
    case Some(n) => JInt(n)
  }

  /** The JSON object of a created `Image` model (timestamps left out). */
  function RowJson(id: nat, row: ImageRow): Json
  {
    JObject(map[
      "id" := JInt(id),
      "filename" := JStr(row.filename),
      "user_id" := UserIdJson(row.userId),
      "url" := JStr(row.url),
      "mime_type" := JStr(row.mimeType)])
  }
}
