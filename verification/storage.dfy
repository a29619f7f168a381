/** The object-store client (internal/utils/supabase.go): URL construction,
    the environment precondition, the request each call sends and how the
    reply's status is classified. The HTTP transport is an oracle: the caller
    passes in what it did with the request. */
module Storage {
  import opened Common

  /** The two environment variables the client reads on every call. */
  datatype Env = Env(supabaseUrl: string, serviceKey: string)

  datatype Method = Post | Delete

  datatype HttpRequest = HttpRequest(
    verb: Method,
    url: string,
    authorization: string,
    contentType: Option<string>)

  /** What became of a request the client tried to send. */
  datatype Reply =
    | Unbuildable(error: string)         // http.NewRequest refused it
    | Unreachable(error: string)         // client.Do failed
    | Answered(status: int, body: string)

  /** The request actually sent (if any) and the call's result. */
  datatype Call<+T> = Call(sent: Option<HttpRequest>, result: Result<T>)

  const ObjectPath := "/storage/v1/object/"
  const PublicPath := "/storage/v1/object/public/"
  const EnvMissing := "Supabase URL or service key not set in env"

  predicate Configured(env: Env)
  {
    env.supabaseUrl != "" && env.serviceKey != ""
  }

  /** The endpoint both upload and delete address. */
  function ObjectUrl(base: string, bucket: string, filename: string): string
  {
    base + ObjectPath + bucket + "/" + filename
  }

  /** The public-read locator an upload hands back. */
  function PublicUrl(base: string, bucket: string, filename: string): string
  {
    base + PublicPath + bucket + "/" + filename
  }

  function Bearer(serviceKey: string): string
  {
    "Bearer " + serviceKey
  }

  predicate UploadAccepted(status: int)
  {
    status == 200 || status == 201
  }

  predicate DeleteAccepted(status: int)
  {
    status == 200 || status == 204
  }

  function UploadRequest(env: Env, bucket: string, filename: string): HttpRequest
  {
    HttpRequest(Post, ObjectUrl(env.supabaseUrl, bucket, filename), Bearer(env.serviceKey), Some("application/octet-stream"))
  }

  function DeleteRequest(env: Env, bucket: string, filename: string): HttpRequest
  {
    HttpRequest(Delete, ObjectUrl(env.supabaseUrl, bucket, filename), Bearer(env.serviceKey), None)
  }

  /** `UploadToSupabase(file, filename, bucket)`; `read` is the outcome of
      buffering the file. */
  function Upload(env: Env, filename: string, bucket: string, read: Step, reply: Reply): (c: Call<string>)
    ensures !Configured(env) ==> c == Call(None, Err(EnvMissing))
    ensures c.sent.Some? <==> Configured(env) && read.Done? && !reply.Unbuildable?
    ensures c.sent.Some? ==> c.sent.value == UploadRequest(env, bucket, filename)
    ensures c.result.Ok? <==> c.sent.Some? && reply.Answered? && UploadAccepted(reply.status)
    ensures c.result.Ok? ==> c.result.value == PublicUrl(env.supabaseUrl, bucket, filename)
    ensures c.sent.Some? && reply.Answered? && !UploadAccepted(reply.status) ==>
              c.result == Err("upload failed: " + reply.body)
  {
    if !Configured(env) then Call(None, Err(EnvMissing))
    else if read.Fail? then Call(None, Err("failed to read file: " + read.error))
    else match reply
      case Unbuildable(e) => Call(None, Err("failed to create upload request: " + e))
      case Unreachable(e) =>
        Call(Some(UploadRequest(env, bucket, filename)), Err("upload request failed: " + e))
      case Answered(status, body) =>
        var sent := Some(UploadRequest(env, bucket, filename));
        if !UploadAccepted(status) then Call(sent, Err("upload failed: " + body))
        else Call(sent, Ok(PublicUrl(env.supabaseUrl, bucket, filename)))
  }

  /** `DeleteFromSupabase(filename, bucket)`. */
  function Remove(env: Env, filename: string, bucket: string, reply: Reply): (c: Call<()>)
    ensures !Configured(env) ==> c == Call(None, Err(EnvMissing))
    ensures c.sent.Some? <==> Configured(env) && !reply.Unbuildable?
    ensures c.sent.Some? ==> c.sent.value == DeleteRequest(env, bucket, filename)
    ensures c.result.Ok? <==> c.sent.Some? && reply.Answered? && DeleteAccepted(reply.status)
    ensures c.sent.Some? && reply.Answered? && !DeleteAccepted(reply.status) ==>
              c.result == Err("delete failed: " + reply.body)
  {
    if !Configured(env) then Call(None, Err(EnvMissing))
    else match reply
      case Unbuildable(e) => Call(None, Err("failed to create delete request: " + e))
      case Unreachable(e) =>
        Call(Some(DeleteRequest(env, bucket, filename)), Err("delete request failed: " + e))
      case Answered(status, body) =>
        var sent := Some(DeleteRequest(env, bucket, filename));
        if !DeleteAccepted(status) then Call(sent, Err("delete failed: " + body))
        else Call(sent, Ok(()))
  }

  /** Every request the client sends carries the service key as a bearer
      credential, and upload and delete address the same object URL. */
  lemma RequestsShareUrlAndCredential(env: Env, bucket: string, filename: string, read: Step, up: Reply, down: Reply)
    requires Upload(env, filename, bucket, read, up).sent.Some?
    requires Remove(env, filename, bucket, down).sent.Some?
    ensures Upload(env, filename, bucket, read, up).sent.value.url == Remove(env, filename, bucket, down).sent.value.url
    ensures Upload(env, filename, bucket, read, up).sent.value.authorization == "Bearer " + env.serviceKey
    ensures Remove(env, filename, bucket, down).sent.value.authorization == "Bearer " + env.serviceKey
    ensures Upload(env, filename, bucket, read, up).sent.value.verb == Post
  {
  }

  /** The locator an upload returns depends on the environment, bucket and
      file name only, never on what the server answered. */
  lemma PublicUrlIgnoresReply(env: Env, filename: string, bucket: string, read: Step, r1: Reply, r2: Reply)
    requires Upload(env, filename, bucket, read, r1).result.Ok?
    requires Upload(env, filename, bucket, read, r2).result.Ok?
    ensures Upload(env, filename, bucket, read, r1).result == Upload(env, filename, bucket, read, r2).result
  {
  }
}
