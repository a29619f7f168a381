/** The protected routes (internal/routes/routes.go): the upload and delete
    handlers run behind the bearer-token middleware, which either aborts
    with 401 or binds `userId` to the token's `sub` claim. */
module Routes {
  import opened Common
  import opened Records
  import opened Store
  import Text
  import Storage
  import Auth
  import Ingest
  import Retract

  /** The part of a request the middleware reads. */
  datatype Credentials = Credentials(header: string, secret: string, verify: Auth.Verifier, now: int)

  function Decide(c: Credentials): Auth.Decision
  {
    Auth.Authorize(c.header, c.secret, c.verify, c.now)
  }

  /** Runs `handler` behind the middleware. */
  function Gate(w: World, c: Credentials, handler: Option<Auth.ClaimValue> -> Outcome): (out: Outcome)
    ensures Decide(c).Reject? ==> Untouched(w, out) && out.response == Fault(Unauthorized, Decide(c).message)
    ensures Decide(c).Accept? ==> out == handler(Some(Decide(c).userId))
  {
    match Decide(c)
    case Reject(message) => Outcome(Fault(Unauthorized, message), w, [])
    case Accept(userId) => handler(Some(userId))
  }

  /** `POST /api/drops/upload`. */
  function ProtectedUpload(w: World, c: Credentials, form: Ingest.UploadForm, env: Storage.Env, o: Ingest.IngestOracle): (out: Outcome)
    requires Ingest.Fresh(w, o)
    ensures Decide(c).Reject? ==> Untouched(w, out) && out.response == Fault(Unauthorized, Decide(c).message)
    // Behind the middleware the handler always finds a caller.
    ensures out.response != Fault(Unauthorized, "User not authenticated")
    // A row appears only for a verified caller, and it names that caller.
    ensures out.world.drops != w.drops ==>
              && Decide(c).Accept? && Decide(c).userId.Str?
              && o.parseUuid(Decide(c).userId.s).Some?
              && o.dropId in out.world.drops
              && out.world.drops == w.drops[o.dropId := out.world.drops[o.dropId]]
              && out.world.drops[o.dropId].userId == o.parseUuid(Decide(c).userId.s).value
    ensures out.world.objects != w.objects ==> Decide(c).Accept?
  {
    Gate(w, c, ctx requires Ingest.Fresh(w, o) => Ingest.UploadDrop(w, form, ctx, env, o))
  }

  /** `DELETE /api/drops/:id`. */
  function ProtectedDelete(w: World, c: Credentials, dropId: string, env: Storage.Env, o: Retract.RetractOracle): (out: Outcome)
    ensures Decide(c).Reject? ==> Untouched(w, out) && out.response == Fault(Unauthorized, Decide(c).message)
    ensures out.response != Fault(Unauthorized, "User not authenticated")
    // Only the owner named by the token changes anything.
    ensures out.world != w ==>
              && Decide(c).Accept?
              && dropId in w.drops
              && Decide(c).userId == Auth.Str(w.drops[dropId].userId)
    ensures out.world.drops != w.drops ==> out.world.drops == w.drops - {dropId} && out.response == Response(NoContent, NoBody)
  {
    Gate(w, c, ctx => Retract.DeleteDrop(w, dropId, ctx, env, o))
  }

  /** A token whose `sub` is a UUID in non-canonical spelling uploads
      drops its holder can never delete: the row stores the canonical
      text, the ownership check compares the raw claim. */
  lemma NonCanonicalOwnerLockedOut(w: World, c: Credentials, form: Ingest.UploadForm, env: Storage.Env,
                                   o: Ingest.IngestOracle, later: World, ro: Retract.RetractOracle)
    requires Ingest.Fresh(w, o)
    requires ProtectedUpload(w, c, form, env, o).response.status == CreatedStatus
    requires o.parseUuid(Decide(c).userId.s) != Some(Decide(c).userId.s)
    requires o.dropId in later.drops && later.drops[o.dropId] == ProtectedUpload(w, c, form, env, o).world.drops[o.dropId]
    requires ro.lookupOk
    ensures ProtectedDelete(later, c, o.dropId, env, ro).response.status == Forbidden
    ensures ProtectedDelete(later, c, o.dropId, env, ro).world == later
  {
    var out := ProtectedUpload(w, c, form, env, o);
    assert out.world.drops != w.drops;
  }

  /** The caller as the upload stores it: the canonical text of a string
      caller that parses as a UUID, and the context value unchanged
      otherwise. */
  function CanonicalCaller(ctx: Option<Auth.ClaimValue>, parseUuid: string -> Option<string>): (r: Option<Auth.ClaimValue>)
    ensures r.None? <==> ctx.None?
    ensures r.Some? ==> (r.value.Str? <==> ctx.value.Str?)
    ensures ctx.Some? && ctx.value.Str? && parseUuid(ctx.value.s).Some? ==> r == Some(Auth.Str(parseUuid(ctx.value.s).value))
    ensures !(ctx.Some? && ctx.value.Str? && parseUuid(ctx.value.s).Some?) ==> r == ctx
  {
    if ctx.Some? && ctx.value.Str? && parseUuid(ctx.value.s).Some? then Some(Auth.Str(parseUuid(ctx.value.s).value)) else ctx
  }

  /** `DELETE /api/drops/:id` with the ownership check made on the caller
      in the form the upload stores. */
  function ProtectedDeleteCanonical(w: World, c: Credentials, dropId: string, env: Storage.Env, o: Retract.RetractOracle,
                                    parseUuid: string -> Option<string>): (out: Outcome)
    ensures Decide(c).Reject? ==> Untouched(w, out) && out.response == Fault(Unauthorized, Decide(c).message)
    ensures Decide(c).Accept? ==> out == Retract.DeleteDrop(w, dropId, CanonicalCaller(Some(Decide(c).userId), parseUuid), env, o)
  {
    Gate(w, c, ctx => Retract.DeleteDrop(w, dropId, CanonicalCaller(ctx, parseUuid), env, o))
  }

  /** With the check made on the canonical caller, the holder of any token
      that uploaded a drop can delete it, whatever the spelling of `sub`. */
  lemma CanonicalOwnerRetracts(w: World, c: Credentials, form: Ingest.UploadForm, env: Storage.Env,
                               o: Ingest.IngestOracle, later: World, ro: Retract.RetractOracle)
    requires Ingest.Fresh(w, o)
    requires ProtectedUpload(w, c, form, env, o).response.status == CreatedStatus
    requires o.dropId in later.drops && later.drops[o.dropId] == ProtectedUpload(w, c, form, env, o).world.drops[o.dropId]
    requires ro.lookupOk && ro.deleteRow.Done?
    ensures ProtectedDeleteCanonical(later, c, o.dropId, env, ro, o.parseUuid).response == Response(NoContent, NoBody)
    ensures ProtectedDeleteCanonical(later, c, o.dropId, env, ro, o.parseUuid).world.drops == later.drops - {o.dropId}
  {
    var out := ProtectedUpload(w, c, form, env, o);
    assert out.world.drops != w.drops;
    var ctx := CanonicalCaller(Some(Decide(c).userId), o.parseUuid);
    assert ctx == Some(Auth.Str(later.drops[o.dropId].userId));
  }

  /** The premises under which the owner's delete undoes an upload: the
      locator scheme is invertible for the configured base, and nothing
      outside fails during the delete. */
  predicate Undoable(env: Storage.Env, o: Ingest.IngestOracle, ro: Retract.RetractOracle)
  {
    && o.videoId != ""
    && Text.IndexOf(env.supabaseUrl, Retract.Segment).None?
    && !Text.EndsWith(env.supabaseUrl, "/drops")
    && ro.lookupOk && ro.deleteRow.Done?
    && ro.videoReply.Answered? && Storage.DeleteAccepted(ro.videoReply.status)
    && ro.thumbReply.Answered? && Storage.DeleteAccepted(ro.thumbReply.status)
  }

  /** The stored locators of a successful upload lead back to its keys. */
  lemma LocatorsLeadBack(d: Drop, job: Ingest.Job, o: Ingest.IngestOracle)
    requires Ingest.Describes(d, job, o)
    requires Text.IndexOf(job.env.supabaseUrl, Retract.Segment).None?
    requires !Text.EndsWith(job.env.supabaseUrl, "/drops")
    ensures Retract.GetPath(d.videoUrl) == job.videoKey
    ensures Retract.GetPath(d.thumbnail) == Ingest.ThumbKey(o.thumbId)
  {
    Retract.GetPathInvertsPublicUrl(job.env.supabaseUrl, job.videoKey);
    Retract.GetPathInvertsPublicUrl(job.env.supabaseUrl, Ingest.ThumbKey(o.thumbId));
  }

  /** The owner's delete of a drop an upload described removes the row
      and both uploaded objects. */
  lemma OwnerRetractsUpload(world: World, dropId: string, env: Storage.Env, ro: Retract.RetractOracle,
                                              job: Ingest.Job, o: Ingest.IngestOracle)
    requires dropId in world.drops && Ingest.Describes(world.drops[dropId], job, o)
    requires job.env == env && Storage.Configured(env) && job.videoKey != ""
    requires Text.IndexOf(env.supabaseUrl, Retract.Segment).None? && !Text.EndsWith(env.supabaseUrl, "/drops")
    requires ro.lookupOk && ro.deleteRow.Done?
    requires ro.videoReply.Answered? && Storage.DeleteAccepted(ro.videoReply.status)
    requires ro.thumbReply.Answered? && Storage.DeleteAccepted(ro.thumbReply.status)
    ensures var down := Retract.DeleteDrop(world, dropId, Some(Auth.Str(world.drops[dropId].userId)), env, ro);
            && down.response == Response(NoContent, NoBody)
            && down.world.drops == world.drops - {dropId}
            && down.world.files == world.files
            && down.world.objects == world.objects - Ingest.Keys(job, o)
  {
    var d := world.drops[dropId];
    LocatorsLeadBack(d, job, o);
    var afterVideo := Retract.DeleteBestEffort(world.objects, [LookupDrop(dropId)], env, job.videoKey, ro.videoReply);
    assert afterVideo.0 == world.objects - {ObjectKey(Bucket, job.videoKey)};
    var afterThumb := Retract.DeleteBestEffort(afterVideo.0, afterVideo.1, env, Ingest.ThumbKey(o.thumbId), ro.thumbReply);
    assert afterThumb.0 == world.objects - Ingest.Keys(job, o);
  }

  /** A successful upload by caller `s` leaves exactly one new row, owned
      by `s` and describing the upload, with a non-empty video key. */
  lemma UploadLeavesOwnedRow(w: World, s: string, form: Ingest.UploadForm, env: Storage.Env,
                                               o: Ingest.IngestOracle)
    requires Ingest.Fresh(w, o)
    requires o.parseUuid(s) == Some(s) && o.videoId != ""
    requires Ingest.UploadDrop(w, form, Some(Auth.Str(s)), env, o).response.status == CreatedStatus
    ensures var up := Ingest.UploadDrop(w, form, Some(Auth.Str(s)), env, o);
            var job := Ingest.JobOf(form, Some(Auth.Str(s)), env, o);
            && o.dropId in up.world.drops
            && up.world.drops[o.dropId].userId == s
            && Ingest.Describes(up.world.drops[o.dropId], job, o)
            && job.env == env && Storage.Configured(env) && job.videoKey != ""
            && up.world.drops - {o.dropId} == w.drops
  {
    var up := Ingest.UploadDrop(w, form, Some(Auth.Str(s)), env, o);
    var job := Ingest.JobOf(form, Some(Auth.Str(s)), env, o);
    assert |job.videoKey| >= |o.videoId|;
    assert up.world.drops == w.drops[o.dropId := up.response.body.drop];
    assert up.world.drops - {o.dropId} == w.drops;
  }

  /** Upload then delete by the same caller `s` (a canonical UUID, as
      the middleware binds it): the row is gone again, neither object the
      upload stored is left, and no file changes. */
  lemma UploadThenRetract(w: World, s: string, form: Ingest.UploadForm, env: Storage.Env,
                                            o: Ingest.IngestOracle, ro: Retract.RetractOracle)
    requires Ingest.Fresh(w, o)
    requires o.parseUuid(s) == Some(s)
    requires Ingest.UploadDrop(w, form, Some(Auth.Str(s)), env, o).response.status == CreatedStatus
    requires Undoable(env, o, ro)
    ensures var up := Ingest.UploadDrop(w, form, Some(Auth.Str(s)), env, o);
            var down := Retract.DeleteDrop(up.world, o.dropId, Some(Auth.Str(s)), env, ro);
            && down.response == Response(NoContent, NoBody)
            && down.world.drops == w.drops
            && down.world.files == up.world.files
            && down.world.objects == up.world.objects - Ingest.Keys(Ingest.JobOf(form, Some(Auth.Str(s)), env, o), o)
  {
    UploadLeavesOwnedRow(w, s, form, env, o);
    var up := Ingest.UploadDrop(w, form, Some(Auth.Str(s)), env, o);
    var job := Ingest.JobOf(form, Some(Auth.Str(s)), env, o);
    OwnerRetractsUpload(up.world, o.dropId, env, ro, job, o);
  }
}
