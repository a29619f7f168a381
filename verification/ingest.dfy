/** The drop upload handler (`UploadDropHandler`,
    internal/handlers/drop_handlers.go): form checks, caller check, temp
    staging of the video, video upload, thumbnail extraction, thumbnail
    upload and the row insert, with the handler's deferred removals run on
    every return. Every external step is an oracle answer in `IngestOracle`. */
module Ingest {
  import opened Common
  import opened Records
  import opened Store
  import Text
  import Storage
  import Auth

  datatype VideoPart = VideoPart(filename: Option<string>)

  /** The parsed multipart body; absent text fields read as "". */
  datatype UploadForm =
    | Unparseable(error: string)
    | Form(video: Option<VideoPart>, caption: string, groupId: string)

  /** The answers of everything outside the handler, in the order asked.
      `parseUuid` is `uuid.Parse` yielding canonical text; the three ids are
      the `uuid.New()` draws for the video key, the thumbnail key and the
      row; `thumbName` is the thumbnail file name built from a fourth draw
      and the clock. */
  datatype IngestOracle = IngestOracle(
    parseUuid: string -> Option<string>,
    videoId: string,
    thumbId: string,
    dropId: string,
    tempVideo: Result<string>,
    copyVideo: Step,
    openVideo: Step,
    readVideo: Step,
    videoReply: Storage.Reply,
    makeThumbDir: Step,
    thumbName: string,
    removeStale: Step,
    ffmpeg: Step,
    ffmpegPartial: bool,
    openThumb: Step,
    readThumb: Step,
    thumbReply: Storage.Reply,
    insert: Step,
    createdAt: int,
    updatedAt: int)

  /** What the operating system and the database guarantee: `CreateTemp`
      returns a file that did not exist, and an insert succeeds only for a
      fresh primary key. */
  predicate Fresh(w: World, o: IngestOracle)
  {
    && (o.tempVideo.Ok? ==> TempVideo(o.tempVideo.value) !in w.files)
    && (o.insert.Done? ==> o.dropId !in w.drops)
  }

  /** The extension of an uploaded file name: from its last '.' on, or "". */
  function Ext(filename: string): (ext: string)
    ensures ext == "" <==> '.' !in filename
    ensures ext != "" ==> ext[0] == '.' && '.' !in ext[1..]
    ensures |ext| <= |filename| && filename == filename[..|filename| - |ext|] + ext
  {
    match Text.LastIndexOfChar(filename, '.')
    case None => ""
    case Some(i) => filename[i..]
  }

  /** The handler's backwards scan for the last '.'. */
  method ScanExt(name: string) returns (ext: string)
    ensures ext == Ext(name)
  {
    ext := "";
    var i := |name| - 1;
    while i >= 0
      invariant -1 <= i < |name|
      invariant forall k :: i < k < |name| ==> name[k] != '.'
      decreases i + 1
    {
      if name[i] == '.' {
        ext := name[i..];
        return;
      }
      i := i - 1;
    }
  }

  function VideoKey(videoId: string, part: VideoPart): string
  {
    videoId + (if part.filename.Some? then Ext(part.filename.value) else "")
  }

  function ThumbKey(thumbId: string): string
  {
    "thumbnails/" + thumbId + ".jpg"
  }

  /** `group_id` is kept only when present and a valid UUID. */
  function GroupOf(text: string, parseUuid: string -> Option<string>): (g: Option<string>)
    ensures g.Some? <==> text != "" && parseUuid(text).Some?
    ensures g.Some? ==> g == parseUuid(text)
  {
    if text != "" && parseUuid(text).Some? then parseUuid(text) else None
  }

  /** The request passes every check made before the first side effect. */
  predicate Admitted(form: UploadForm, ctx: Option<Auth.ClaimValue>, o: IngestOracle)
  {
    && form.Form?
    && form.video.Some?
    && ctx.Some?
    && ctx.value.Str?
    && o.parseUuid(ctx.value.s).Some?
  }

  /** The temp video was created, filled and reopened. */
  predicate Staged(o: IngestOracle)
  {
    o.tempVideo.Ok? && o.copyVideo.Done? && o.openVideo.Done?
  }

  /** The store accepted an upload: the client was configured, the file
      was read, and the server answered 200 or 201. */
  predicate Stored(env: Storage.Env, read: Step, reply: Storage.Reply)
  {
    Storage.Configured(env) && read.Done? && reply.Answered? && Storage.UploadAccepted(reply.status)
  }

  /** Every thumbnail step before its upload succeeded; `stale` says a
      thumbnail file of the same name was already there. */
  predicate FrameReady(o: IngestOracle, stale: bool)
  {
    o.makeThumbDir.Done? && !(stale && o.removeStale.Fail?) && o.ffmpeg.Done? && o.openThumb.Done?
  }

  /** Every step before the row insert succeeded, both uploads included. */
  predicate ReachesInsert(w: World, form: UploadForm, ctx: Option<Auth.ClaimValue>, env: Storage.Env, o: IngestOracle)
  {
    && Admitted(form, ctx, o)
    && Staged(o)
    && Stored(env, o.readVideo, o.videoReply)
    && FrameReady(o, ThumbFile(o.thumbName) in w.files)
    && Stored(env, o.readThumb, o.thumbReply)
  }

  /** The video object, when its upload was accepted. */
  function VideoObject(videoKey: string, stored: bool): set<ObjectKey>
  {
    if stored then {ObjectKey(Bucket, videoKey)} else {}
  }

  /** The thumbnail object, when its upload was accepted. */
  function ThumbObject(o: IngestOracle, stored: bool): set<ObjectKey>
  {
    if stored then {ObjectKey(Bucket, ThumbKey(o.thumbId))} else {}
  }

  /** What the later stages need from the request. */
  datatype Job = Job(
    userId: string,
    groupId: Option<string>,
    caption: string,
    videoKey: string,
    env: Storage.Env)

  function JobOf(form: UploadForm, ctx: Option<Auth.ClaimValue>, env: Storage.Env, o: IngestOracle): Job
    requires Admitted(form, ctx, o)
  {
    Job(o.parseUuid(ctx.value.s).value, GroupOf(form.groupId, o.parseUuid), form.caption,
        VideoKey(o.videoId, form.video.value), env)
  }

  /** A run in progress: the world so far, the effects so far, and the
      deferred removals, most recently registered first. */
  datatype Run = Run(world: World, trace: seq<Effect>, deferred: seq<Path>)

  function Removals(paths: seq<Path>): (t: seq<Effect>)
    ensures |t| == |paths|
    ensures forall i :: 0 <= i < |paths| ==> t[i] == RemoveFile(paths[i])
    ensures forall e :: e in t ==> e.RemoveFile?
  {
    seq(|paths|, i requires 0 <= i < |paths| => RemoveFile(paths[i]))
  }

  /** Return from the handler: the deferred removals run, then it answers. */
  function Stop(r: Run, response: Response): (out: Outcome)
    ensures out.response == response
    ensures out.world == r.world.(files := r.world.files - set p | p in r.deferred)
    ensures out.trace == r.trace + Removals(r.deferred)
  {
    Outcome(response, r.world.(files := r.world.files - set p | p in r.deferred), r.trace + Removals(r.deferred))
  }

  /** An upload's effect: the request it sent, and the object it stored. */
  function Record(r: Run, call: Storage.Call<string>, key: string): (r': Run)
    ensures r'.world.files == r.world.files && r'.world.drops == r.world.drops && r'.deferred == r.deferred
    ensures call.result.Ok? ==> r'.world.objects == r.world.objects + {ObjectKey(Bucket, key)}
    ensures call.result.Err? ==> r'.world.objects == r.world.objects
    ensures r'.trace == r.trace + Sent(call)
  {
    var objects := if call.result.Ok? then r.world.objects + {ObjectKey(Bucket, key)} else r.world.objects;
    r.(world := r.world.(objects := objects), trace := r.trace + Sent(call))
  }

  /** The two objects an upload may store. */
  function Keys(job: Job, o: IngestOracle): set<ObjectKey>
  {
    {ObjectKey(Bucket, job.videoKey), ObjectKey(Bucket, ThumbKey(o.thumbId))}
  }

  /** What holds of a run between two stages, relative to the world `w0`
      the handler started from: `tv` is the fresh temp video, every file
      created so far is registered for removal, objects have only grown by
      this upload's keys, and no row has been written. */
  predicate Inv(w0: World, job: Job, o: IngestOracle, tv: Path, r: Run)
  {
    && tv.TempVideo?
    && tv !in w0.files
    && tv in r.deferred
    && (forall p :: p in r.deferred ==> p == tv || p == ThumbFile(o.thumbName))
    && (forall p :: p in r.world.files && p !in r.deferred ==> p in w0.files)
    && w0.files - {ThumbFile(o.thumbName)} <= r.world.files
    && w0.objects <= r.world.objects <= w0.objects + Keys(job, o)
    && r.world.drops == w0.drops
  }

  /** What holds of every answer once the request was admitted. */
  predicate Settled(w0: World, job: Job, o: IngestOracle, out: Outcome)
  {
    && out.world.files <= w0.files
    && w0.files - {ThumbFile(o.thumbName)} <= out.world.files
    && w0.objects <= out.world.objects <= w0.objects + Keys(job, o)
    && (out.response.status == CreatedStatus <==> out.world.drops != w0.drops)
    && (out.response.status != CreatedStatus ==>
          out.world.drops == w0.drops && out.response.status == ServerError && out.response.body.Error?)
    && (out.response.status == CreatedStatus ==>
          && Storage.Configured(job.env)
          && o.insert.Done?
          && out.response.body.Created?
          && out.world.drops == w0.drops[o.dropId := out.response.body.drop]
          && Describes(out.response.body.drop, job, o)
          && Keys(job, o) <= out.world.objects)
  }

  /** Returning an error from a run in progress settles the handler. */
  lemma StopSettles(w0: World, job: Job, o: IngestOracle, tv: Path, r: Run, message: string)
    requires Inv(w0, job, o, tv, r)
    ensures Settled(w0, job, o, Stop(r, Fault(ServerError, message)))
    ensures Stop(r, Fault(ServerError, message)).response.status != CreatedStatus
    ensures Stop(r, Fault(ServerError, message)).world.objects == r.world.objects
    ensures InsertDrop(o.dropId) in Stop(r, Fault(ServerError, message)).trace <==> InsertDrop(o.dropId) in r.trace
  {
    var out := Stop(r, Fault(ServerError, message));
    forall p | p in w0.files - {ThumbFile(o.thumbName)}
      ensures p in out.world.files
    {
      assert p != tv;
    }
  }

  /** `UploadDropHandler`, called with the context value `userId` that the
      auth middleware set (None when it set nothing). */
  function UploadDrop(w: World, form: UploadForm, ctx: Option<Auth.ClaimValue>, env: Storage.Env, o: IngestOracle): (out: Outcome)
    requires Fresh(w, o)
    // Rejections before the first side effect.
    ensures !Admitted(form, ctx, o) ==> Untouched(w, out) && out.response.body.Error?
    ensures form.Unparseable? || (form.Form? && form.video.None?) <==> out.response.status == BadRequest
    ensures out.response.status == Unauthorized <==> !form.Unparseable? && form.video.Some? && ctx.None?
    ensures !Admitted(form, ctx, o) && out.response.status != BadRequest && out.response.status != Unauthorized ==>
              out.response.status == ServerError
    // Temporary files: everything created is gone, nothing else is touched
    // but a stale thumbnail of the same name.
    ensures out.world.files <= w.files
    ensures w.files - {ThumbFile(o.thumbName)} <= out.world.files
    // Objects are only ever added, and only the two this upload names.
    ensures w.objects <= out.world.objects
    ensures Admitted(form, ctx, o) ==> out.world.objects <= w.objects + Keys(JobOf(form, ctx, env, o), o)
    // The row is inserted exactly on success, and it describes this upload.
    ensures out.response.status == CreatedStatus <==> out.world.drops != w.drops
    ensures out.response.status != CreatedStatus ==>
              out.world.drops == w.drops && out.response.body.Error? && out.response.status in {BadRequest, Unauthorized, ServerError}
    ensures out.response.status == CreatedStatus ==>
              && Admitted(form, ctx, o)
              && Storage.Configured(env)
              && o.dropId !in w.drops
              && out.response.body.Created?
              && out.world.drops == w.drops[o.dropId := out.response.body.drop]
              && Describes(out.response.body.drop, JobOf(form, ctx, env, o), o)
              && Keys(JobOf(form, ctx, env, o), o) <= out.world.objects
    // The row is inserted exactly when every stage succeeded, and the
    // insert is attempted only once both uploads were accepted.
    ensures out.response.status == CreatedStatus <==> ReachesInsert(w, form, ctx, env, o) && o.insert.Done?
    ensures InsertDrop(o.dropId) in out.trace <==> ReachesInsert(w, form, ctx, env, o)
    ensures Admitted(form, ctx, o) ==>
              out.world.objects == w.objects
                                   + VideoObject(JobOf(form, ctx, env, o).videoKey, Staged(o) && Stored(env, o.readVideo, o.videoReply))
                                   + ThumbObject(o, ReachesInsert(w, form, ctx, env, o))
  {
    match form
    case Unparseable(e) => Outcome(Fault(BadRequest, "Failed to parse form: " + e), w, [])
    case Form(video, caption, groupId) =>
      if video.None? then Outcome(Fault(BadRequest, "Video file is required"), w, [])
      else if ctx.None? then Outcome(Fault(Unauthorized, "User not authenticated"), w, [])
      else if !ctx.value.Str? then Outcome(Fault(ServerError, "Invalid user ID in context"), w, [])
      else if o.parseUuid(ctx.value.s).None? then Outcome(Fault(ServerError, "User ID is not a valid UUID"), w, [])
      else SaveVideo(w, JobOf(form, ctx, env, o), o)
  }

  /** The row an upload inserts: the caller, the parsed group, the two
      public locators, the caption verbatim and no votes. */
  predicate Describes(d: Drop, job: Job, o: IngestOracle)
  {
    && d.id == o.dropId
    && d.userId == job.userId
    && d.groupId == job.groupId
    && d.videoUrl == Storage.PublicUrl(job.env.supabaseUrl, Bucket, job.videoKey)
    && d.thumbnail == Storage.PublicUrl(job.env.supabaseUrl, Bucket, ThumbKey(o.thumbId))
    && d.caption == job.caption
    && d.createdAt == o.createdAt
    && d.updatedAt == o.updatedAt
    && d.votes == 0
  }

  /** Temp file creation, copy and reopen (drop_handlers.go:79-108). */
  function SaveVideo(w: World, job: Job, o: IngestOracle): (out: Outcome)
    requires Fresh(w, o)
    ensures Settled(w, job, o, out)
    ensures !Staged(o) ==> out.world == w && out.response.status == ServerError
    ensures out.response.status == CreatedStatus <==>
              && Staged(o) && Stored(job.env, o.readVideo, o.videoReply)
              && FrameReady(o, ThumbFile(o.thumbName) in w.files) && Stored(job.env, o.readThumb, o.thumbReply)
              && o.insert.Done?
    ensures InsertDrop(o.dropId) in out.trace <==>
              && Staged(o) && Stored(job.env, o.readVideo, o.videoReply)
              && FrameReady(o, ThumbFile(o.thumbName) in w.files) && Stored(job.env, o.readThumb, o.thumbReply)
    ensures out.world.objects ==
              w.objects + VideoObject(job.videoKey, Staged(o) && Stored(job.env, o.readVideo, o.videoReply))
              + ThumbObject(o, && Staged(o) && Stored(job.env, o.readVideo, o.videoReply)
                               && FrameReady(o, ThumbFile(o.thumbName) in w.files) && Stored(job.env, o.readThumb, o.thumbReply))
  {
    match o.tempVideo
    case Err(e) => Outcome(Fault(ServerError, "Failed to create temp video file: " + e), w, [])
    case Ok(name) =>
      var tv := TempVideo(name);
      var r := Run(w.(files := w.files + {tv}), [CreateFile(tv)], [tv]);
      assert Inv(w, job, o, tv, r);
      if o.copyVideo.Fail? then
        StopSettles(w, job, o, tv, r, "Failed to save temp video file: " + o.copyVideo.error);
        Stop(r, Fault(ServerError, "Failed to save temp video file: " + o.copyVideo.error))
      else if o.openVideo.Fail? then
        StopSettles(w, job, o, tv, r, "Failed to open temp video file: " + o.openVideo.error);
        Stop(r, Fault(ServerError, "Failed to open temp video file: " + o.openVideo.error))
      else UploadVideo(w, r, tv, job, o)
  }

  /** The video goes to the store before any thumbnail work
      (drop_handlers.go:110-115). */
  function UploadVideo(w0: World, r: Run, tv: Path, job: Job, o: IngestOracle): (out: Outcome)
    requires Fresh(w0, o) && Inv(w0, job, o, tv, r)
    ensures Settled(w0, job, o, out)
    ensures out.response.status == CreatedStatus <==>
              && Stored(job.env, o.readVideo, o.videoReply) && FrameReady(o, ThumbFile(o.thumbName) in r.world.files)
              && Stored(job.env, o.readThumb, o.thumbReply) && o.insert.Done?
    ensures InsertDrop(o.dropId) in out.trace <==>
              || InsertDrop(o.dropId) in r.trace
              || (&& Stored(job.env, o.readVideo, o.videoReply) && FrameReady(o, ThumbFile(o.thumbName) in r.world.files)
                  && Stored(job.env, o.readThumb, o.thumbReply))
    ensures out.world.objects ==
              r.world.objects + VideoObject(job.videoKey, Stored(job.env, o.readVideo, o.videoReply))
              + ThumbObject(o, && Stored(job.env, o.readVideo, o.videoReply)
                               && FrameReady(o, ThumbFile(o.thumbName) in r.world.files)
                               && Stored(job.env, o.readThumb, o.thumbReply))
  {
    var call := Storage.Upload(job.env, job.videoKey, Bucket, o.readVideo, o.videoReply);
    var r1 := Record(r, call, job.videoKey);
    assert Inv(w0, job, o, tv, r1);
    assert call.result.Ok? <==> Stored(job.env, o.readVideo, o.videoReply);
    assert (ThumbFile(o.thumbName) in r1.world.files) == (ThumbFile(o.thumbName) in r.world.files);
    match call.result
    case Err(e) =>
      StopSettles(w0, job, o, tv, r1, "Failed to upload video: " + e);
      Stop(r1, Fault(ServerError, "Failed to upload video: " + e))
    case Ok(videoUrl) =>
      assert r1.world.objects == r.world.objects + VideoObject(job.videoKey, true);
      Thumbnail(w0, r1, tv, videoUrl, job, o)
  }

  /** The run as ffmpeg starts: the thumbnail directory made, a stale file
      of the same name removed, and the thumbnail path registered for
      removal. */
  function FfmpegStarted(r: Run, tv: Path, tp: Path): Run
  {
    var r1 := r.(trace := r.trace + [MakeThumbDir]);
    var r2 := if tp in r1.world.files
              then r1.(world := r1.world.(files := r1.world.files - {tp}), trace := r1.trace + [RemoveFile(tp)])
              else r1;
    r2.(trace := r2.trace + [RunFfmpeg(tv, tp)], deferred := [tp] + r2.deferred)
  }

  /** Thumbnail directory, stale-file removal and ffmpeg
      (drop_handlers.go:117-164). */
  function Thumbnail(w0: World, r: Run, tv: Path, videoUrl: string, job: Job, o: IngestOracle): (out: Outcome)
    requires Fresh(w0, o) && Inv(w0, job, o, tv, r)
    requires videoUrl == Storage.PublicUrl(job.env.supabaseUrl, Bucket, job.videoKey)
    requires ObjectKey(Bucket, job.videoKey) in r.world.objects
    ensures Settled(w0, job, o, out)
    ensures out.response.status == CreatedStatus <==>
              FrameReady(o, ThumbFile(o.thumbName) in r.world.files) && Stored(job.env, o.readThumb, o.thumbReply) && o.insert.Done?
    ensures InsertDrop(o.dropId) in out.trace <==>
              || InsertDrop(o.dropId) in r.trace
              || (FrameReady(o, ThumbFile(o.thumbName) in r.world.files) && Stored(job.env, o.readThumb, o.thumbReply))
    ensures out.world.objects ==
              r.world.objects + ThumbObject(o, FrameReady(o, ThumbFile(o.thumbName) in r.world.files) && Stored(job.env, o.readThumb, o.thumbReply))
  {
    var r1 := r.(trace := r.trace + [MakeThumbDir]);
    var tp := ThumbFile(o.thumbName);
    assert Inv(w0, job, o, tv, r1);
    if o.makeThumbDir.Fail? then
      StopSettles(w0, job, o, tv, r1, "Failed to create thumbnail directory: " + o.makeThumbDir.error);
      Stop(r1, Fault(ServerError, "Failed to create thumbnail directory: " + o.makeThumbDir.error))
    else if tp in r1.world.files && o.removeStale.Fail? then
      StopSettles(w0, job, o, tv, r1, "Failed to remove existing thumbnail file: " + o.removeStale.error);
      Stop(r1, Fault(ServerError, "Failed to remove existing thumbnail file: " + o.removeStale.error))
    else
      var r3 := FfmpegStarted(r, tv, tp);
      assert Inv(w0, job, o, tv, r3);
      if o.ffmpeg.Fail? then
        var r4 := if o.ffmpegPartial then r3.(world := r3.world.(files := r3.world.files + {tp})) else r3;
        assert Inv(w0, job, o, tv, r4);
        StopSettles(w0, job, o, tv, r4, "Failed to generate thumbnail: " + o.ffmpeg.error);
        Stop(r4, Fault(ServerError, "Failed to generate thumbnail: " + o.ffmpeg.error))
      else
        var r4 := AfterFfmpeg(r, tv, tp);
        assert Inv(w0, job, o, tv, r4);
        if o.openThumb.Fail? then
          StopSettles(w0, job, o, tv, r4, "Failed to open generated thumbnail: " + o.openThumb.error);
          Stop(r4, Fault(ServerError, "Failed to open generated thumbnail: " + o.openThumb.error))
        else UploadThumbnail(w0, r4, tv, videoUrl, job, o)
  }

  /** Thumbnail upload and the row insert (drop_handlers.go:166-196). */
  function UploadThumbnail(w0: World, r: Run, tv: Path, videoUrl: string, job: Job, o: IngestOracle): (out: Outcome)
    requires Fresh(w0, o) && Inv(w0, job, o, tv, r)
    requires videoUrl == Storage.PublicUrl(job.env.supabaseUrl, Bucket, job.videoKey)
    requires ObjectKey(Bucket, job.videoKey) in r.world.objects
    ensures Settled(w0, job, o, out)
    ensures out.response.status == CreatedStatus <==> Stored(job.env, o.readThumb, o.thumbReply) && o.insert.Done?
    ensures InsertDrop(o.dropId) in out.trace <==> InsertDrop(o.dropId) in r.trace || Stored(job.env, o.readThumb, o.thumbReply)
    ensures out.world.objects == r.world.objects + ThumbObject(o, Stored(job.env, o.readThumb, o.thumbReply))
  {
    var key := ThumbKey(o.thumbId);
    var call := Storage.Upload(job.env, key, Bucket, o.readThumb, o.thumbReply);
    var r1 := Record(r, call, key);
    assert Inv(w0, job, o, tv, r1);
    match call.result
    case Err(e) =>
      StopSettles(w0, job, o, tv, r1, "Failed to upload thumbnail: " + e);
      Stop(r1, Fault(ServerError, "Failed to upload thumbnail: " + e))
    case Ok(thumbUrl) =>
      var d := Drop(o.dropId, job.userId, job.groupId, videoUrl, thumbUrl, job.caption, o.createdAt, o.updatedAt, 0, "");
      var r2 := r1.(trace := r1.trace + [InsertDrop(d.id)]);
      assert Inv(w0, job, o, tv, r2);
      if o.insert.Fail? then
        StopSettles(w0, job, o, tv, r2, "Failed to insert drop: " + o.insert.error);
        Stop(r2, Fault(ServerError, "Failed to insert drop: " + o.insert.error))
      else
        var r3 := r2.(world := r2.world.(drops := r2.world.drops[d.id := d]));
        var out := Stop(r3, Response(CreatedStatus, Created(d)));
        assert out.world.drops != w0.drops by {
          assert d.id in out.world.drops && d.id !in w0.drops;
        }
        StopSettles(w0, job, o, tv, r2, "");
        out
  }

  /** The effects of the stages from the thumbnail upload on. */
  function InsertStages(job: Job, o: IngestOracle): seq<Effect>
  {
    [Http(Storage.UploadRequest(job.env, Bucket, ThumbKey(o.thumbId))), InsertDrop(o.dropId)]
  }

  /** The effects of the stages from the thumbnail directory on. */
  function ThumbStages(job: Job, o: IngestOracle, tv: Path, stale: bool): seq<Effect>
  {
    var tp := ThumbFile(o.thumbName);
    [MakeThumbDir] + (if stale then [RemoveFile(tp)] else []) + [RunFfmpeg(tv, tp)] + InsertStages(job, o)
  }

  /** Every effect the handler can perform after admission, in the only
      order it performs them: temp video, video upload, thumbnail
      directory, removal of a stale thumbnail, ffmpeg, thumbnail upload,
      row insert. */
  function Pipeline(job: Job, o: IngestOracle, tv: Path, stale: bool): seq<Effect>
  {
    [CreateFile(tv), Http(Storage.UploadRequest(job.env, Bucket, job.videoKey))] + ThumbStages(job, o, tv, stale)
  }

  lemma InsertTrace(w0: World, r: Run, tv: Path, videoUrl: string, job: Job, o: IngestOracle)
      returns (k: nat)
    requires Fresh(w0, o) && Inv(w0, job, o, tv, r)
    requires videoUrl == Storage.PublicUrl(job.env.supabaseUrl, Bucket, job.videoKey)
    requires ObjectKey(Bucket, job.videoKey) in r.world.objects
    ensures k <= |InsertStages(job, o)|
    ensures UploadThumbnail(w0, r, tv, videoUrl, job, o).trace == r.trace + InsertStages(job, o)[..k] + Removals(r.deferred)
  {
    var tcall := Storage.Upload(job.env, ThumbKey(o.thumbId), Bucket, o.readThumb, o.thumbReply);
    var Q := InsertStages(job, o);
    if tcall.result.Err? {
      k := |Sent(tcall)|;
      assert Q[..k] == Sent(tcall);
    } else {
      k := 2;
      assert Q[..k] == Sent(tcall) + [InsertDrop(o.dropId)];
    }
  }

  /** The effects before ffmpeg, when the thumbnail work goes that far. */
  function BeforeFfmpeg(tv: Path, tp: Path, stale: bool): seq<Effect>
  {
    [MakeThumbDir] + (if stale then [RemoveFile(tp)] else []) + [RunFfmpeg(tv, tp)]
  }

  /** The run handed to the thumbnail upload once ffmpeg produced a frame. */
  function AfterFfmpeg(r: Run, tv: Path, tp: Path): Run
  {
    var r3 := FfmpegStarted(r, tv, tp);
    r3.(world := r3.world.(files := r3.world.files + {tp}))
  }

  lemma ThumbnailStopsEarly(w0: World, r: Run, tv: Path, videoUrl: string, job: Job, o: IngestOracle)
    requires Fresh(w0, o) && Inv(w0, job, o, tv, r)
    requires videoUrl == Storage.PublicUrl(job.env.supabaseUrl, Bucket, job.videoKey)
    requires ObjectKey(Bucket, job.videoKey) in r.world.objects
    requires o.makeThumbDir.Fail? || (ThumbFile(o.thumbName) in r.world.files && o.removeStale.Fail?)
    ensures Thumbnail(w0, r, tv, videoUrl, job, o).trace == r.trace + [MakeThumbDir] + Removals(r.deferred)
  {
  }

  lemma FfmpegStops(w0: World, r: Run, tv: Path, videoUrl: string, job: Job, o: IngestOracle)
    requires Fresh(w0, o) && Inv(w0, job, o, tv, r)
    requires videoUrl == Storage.PublicUrl(job.env.supabaseUrl, Bucket, job.videoKey)
    requires ObjectKey(Bucket, job.videoKey) in r.world.objects
    requires o.makeThumbDir.Done? && !(ThumbFile(o.thumbName) in r.world.files && o.removeStale.Fail?)
    requires o.ffmpeg.Fail? || o.openThumb.Fail?
    ensures Thumbnail(w0, r, tv, videoUrl, job, o).trace ==
              r.trace + BeforeFfmpeg(tv, ThumbFile(o.thumbName), ThumbFile(o.thumbName) in r.world.files)
              + Removals([ThumbFile(o.thumbName)] + r.deferred)
  {
  }

  lemma FfmpegSucceeds(w0: World, r: Run, tv: Path, videoUrl: string, job: Job, o: IngestOracle)
    requires Fresh(w0, o) && Inv(w0, job, o, tv, r)
    requires videoUrl == Storage.PublicUrl(job.env.supabaseUrl, Bucket, job.videoKey)
    requires ObjectKey(Bucket, job.videoKey) in r.world.objects
    requires o.makeThumbDir.Done? && !(ThumbFile(o.thumbName) in r.world.files && o.removeStale.Fail?)
    requires o.ffmpeg.Done? && o.openThumb.Done?
    ensures Inv(w0, job, o, tv, AfterFfmpeg(r, tv, ThumbFile(o.thumbName)))
    ensures ObjectKey(Bucket, job.videoKey) in AfterFfmpeg(r, tv, ThumbFile(o.thumbName)).world.objects
    ensures AfterFfmpeg(r, tv, ThumbFile(o.thumbName)).trace ==
              r.trace + BeforeFfmpeg(tv, ThumbFile(o.thumbName), ThumbFile(o.thumbName) in r.world.files)
    ensures AfterFfmpeg(r, tv, ThumbFile(o.thumbName)).deferred == [ThumbFile(o.thumbName)] + r.deferred
    ensures Thumbnail(w0, r, tv, videoUrl, job, o) ==
              UploadThumbnail(w0, AfterFfmpeg(r, tv, ThumbFile(o.thumbName)), tv, videoUrl, job, o)
  {
  }

  /** The thumbnail stages as a prefix of `ThumbStages`, when ffmpeg never
      starts. */
  lemma EarlyStopPrefix(w0: World, r: Run, tv: Path, videoUrl: string, job: Job, o: IngestOracle)
    requires Fresh(w0, o) && Inv(w0, job, o, tv, r) && r.deferred == [tv]
    requires videoUrl == Storage.PublicUrl(job.env.supabaseUrl, Bucket, job.videoKey)
    requires ObjectKey(Bucket, job.videoKey) in r.world.objects
    requires o.makeThumbDir.Fail? || (ThumbFile(o.thumbName) in r.world.files && o.removeStale.Fail?)
    ensures Thumbnail(w0, r, tv, videoUrl, job, o).trace ==
              r.trace + ThumbStages(job, o, tv, ThumbFile(o.thumbName) in r.world.files)[..1] + Removals([tv])
  {
    ThumbnailStopsEarly(w0, r, tv, videoUrl, job, o);
    assert ThumbStages(job, o, tv, ThumbFile(o.thumbName) in r.world.files)[..1] == [MakeThumbDir];
  }

  /** The thumbnail stages as a prefix of `ThumbStages`, when ffmpeg or the
      reopen of its output fails. */
  lemma FfmpegStopPrefix(w0: World, r: Run, tv: Path, videoUrl: string, job: Job, o: IngestOracle) returns (k: nat)
    requires Fresh(w0, o) && Inv(w0, job, o, tv, r) && r.deferred == [tv]
    requires videoUrl == Storage.PublicUrl(job.env.supabaseUrl, Bucket, job.videoKey)
    requires ObjectKey(Bucket, job.videoKey) in r.world.objects
    requires o.makeThumbDir.Done? && !(ThumbFile(o.thumbName) in r.world.files && o.removeStale.Fail?)
    requires o.ffmpeg.Fail? || o.openThumb.Fail?
    ensures k <= |ThumbStages(job, o, tv, ThumbFile(o.thumbName) in r.world.files)|
    ensures Thumbnail(w0, r, tv, videoUrl, job, o).trace ==
              r.trace + ThumbStages(job, o, tv, ThumbFile(o.thumbName) in r.world.files)[..k]
              + Removals([ThumbFile(o.thumbName), tv])
  {
    var tp := ThumbFile(o.thumbName);
    var pre := BeforeFfmpeg(tv, tp, tp in r.world.files);
    FfmpegStops(w0, r, tv, videoUrl, job, o);
    k := |pre|;
    ThumbStagesSplit(job, o, tv, tp in r.world.files, 0);
  }

  /** The thumbnail stages as a prefix of `ThumbStages`, once ffmpeg
      produced a frame. */
  lemma UploadStagePrefix(w0: World, r: Run, tv: Path, videoUrl: string, job: Job, o: IngestOracle) returns (k: nat)
    requires Fresh(w0, o) && Inv(w0, job, o, tv, r) && r.deferred == [tv]
    requires videoUrl == Storage.PublicUrl(job.env.supabaseUrl, Bucket, job.videoKey)
    requires ObjectKey(Bucket, job.videoKey) in r.world.objects
    requires o.makeThumbDir.Done? && !(ThumbFile(o.thumbName) in r.world.files && o.removeStale.Fail?)
    requires o.ffmpeg.Done? && o.openThumb.Done?
    ensures k <= |ThumbStages(job, o, tv, ThumbFile(o.thumbName) in r.world.files)|
    ensures Thumbnail(w0, r, tv, videoUrl, job, o).trace ==
              r.trace + ThumbStages(job, o, tv, ThumbFile(o.thumbName) in r.world.files)[..k]
              + Removals([ThumbFile(o.thumbName), tv])
  {
    var tp := ThumbFile(o.thumbName);
    var pre := BeforeFfmpeg(tv, tp, tp in r.world.files);
    var j := AfterFfmpegTrace(w0, r, tv, videoUrl, job, o);
    k := |pre| + j;
    ThumbStagesSplit(job, o, tv, tp in r.world.files, j);
    Regroup(Thumbnail(w0, r, tv, videoUrl, job, o).trace, r.trace, pre, InsertStages(job, o)[..j],
            ThumbStages(job, o, tv, tp in r.world.files), k, Removals([tp, tv]));
  }

  /** Once ffmpeg produced a frame, the effects are those before ffmpeg,
      then a prefix of the insert stages, then the two removals. */
  lemma AfterFfmpegTrace(w0: World, r: Run, tv: Path, videoUrl: string, job: Job, o: IngestOracle) returns (j: nat)
    requires Fresh(w0, o) && Inv(w0, job, o, tv, r) && r.deferred == [tv]
    requires videoUrl == Storage.PublicUrl(job.env.supabaseUrl, Bucket, job.videoKey)
    requires ObjectKey(Bucket, job.videoKey) in r.world.objects
    requires o.makeThumbDir.Done? && !(ThumbFile(o.thumbName) in r.world.files && o.removeStale.Fail?)
    requires o.ffmpeg.Done? && o.openThumb.Done?
    ensures j <= |InsertStages(job, o)|
    ensures Thumbnail(w0, r, tv, videoUrl, job, o).trace ==
              (r.trace + BeforeFfmpeg(tv, ThumbFile(o.thumbName), ThumbFile(o.thumbName) in r.world.files))
              + InsertStages(job, o)[..j] + Removals([ThumbFile(o.thumbName), tv])
  {
    FfmpegSucceeds(w0, r, tv, videoUrl, job, o);
    j := InsertTrace(w0, AfterFfmpeg(r, tv, ThumbFile(o.thumbName)), tv, videoUrl, job, o);
  }

  /** A trace built stage group by stage group is the base followed by a
      prefix of the stage order. */
  lemma Regroup(t: seq<Effect>, base: seq<Effect>, pre: seq<Effect>, rest: seq<Effect>, stages: seq<Effect>, k: nat,
                tail: seq<Effect>)
    requires t == (base + pre) + rest + tail
    requires k <= |stages| && stages[..k] == pre + rest
    ensures t == base + stages[..k] + tail
  {
  }

  /** Cutting `ThumbStages` inside the last two stages. */
  lemma ThumbStagesSplit(job: Job, o: IngestOracle, tv: Path, stale: bool, j: nat)
    requires j <= |InsertStages(job, o)|
    ensures var pre := BeforeFfmpeg(tv, ThumbFile(o.thumbName), stale);
            && |pre| + j <= |ThumbStages(job, o, tv, stale)|
            && ThumbStages(job, o, tv, stale)[..|pre| + j] == pre + InsertStages(job, o)[..j]
  {
    var pre := BeforeFfmpeg(tv, ThumbFile(o.thumbName), stale);
    assert ThumbStages(job, o, tv, stale) == pre + InsertStages(job, o);
  }

  lemma ThumbnailTrace(w0: World, r: Run, tv: Path, videoUrl: string, job: Job, o: IngestOracle)
      returns (k: nat, cleanup: seq<Path>)
    requires Fresh(w0, o) && Inv(w0, job, o, tv, r) && r.deferred == [tv]
    requires videoUrl == Storage.PublicUrl(job.env.supabaseUrl, Bucket, job.videoKey)
    requires ObjectKey(Bucket, job.videoKey) in r.world.objects
    ensures k <= |ThumbStages(job, o, tv, ThumbFile(o.thumbName) in r.world.files)|
    ensures Thumbnail(w0, r, tv, videoUrl, job, o).trace ==
              r.trace + ThumbStages(job, o, tv, ThumbFile(o.thumbName) in r.world.files)[..k] + Removals(cleanup)
    ensures cleanup == [tv] || cleanup == [ThumbFile(o.thumbName), tv]
  {
    var tp := ThumbFile(o.thumbName);
    if o.makeThumbDir.Fail? || (tp in r.world.files && o.removeStale.Fail?) {
      EarlyStopPrefix(w0, r, tv, videoUrl, job, o);
      k, cleanup := 1, [tv];
    } else if o.ffmpeg.Fail? || o.openThumb.Fail? {
      k := FfmpegStopPrefix(w0, r, tv, videoUrl, job, o);
      cleanup := [tp, tv];
    } else {
      k := UploadStagePrefix(w0, r, tv, videoUrl, job, o);
      cleanup := [tp, tv];
    }
  }

  lemma SaveVideoStops(w: World, job: Job, o: IngestOracle)
    requires Fresh(w, o) && o.tempVideo.Ok?
    requires o.copyVideo.Fail? || o.openVideo.Fail?
    ensures SaveVideo(w, job, o).trace == [CreateFile(TempVideo(o.tempVideo.value)), RemoveFile(TempVideo(o.tempVideo.value))]
  {
  }

  lemma VideoUploadTrace(w: World, job: Job, o: IngestOracle) returns (r1: Run)
    requires Fresh(w, o) && o.tempVideo.Ok? && o.copyVideo.Done? && o.openVideo.Done?
    ensures var tv := TempVideo(o.tempVideo.value);
            var call := Storage.Upload(job.env, job.videoKey, Bucket, o.readVideo, o.videoReply);
            && Inv(w, job, o, tv, r1)
            && r1.deferred == [tv]
            && r1.trace == [CreateFile(tv)] + Sent(call)
            && r1.world.files == w.files + {tv}
            && (call.result.Err? ==> SaveVideo(w, job, o).trace == r1.trace + [RemoveFile(tv)])
            && (call.result.Ok? ==>
                  && ObjectKey(Bucket, job.videoKey) in r1.world.objects
                  && SaveVideo(w, job, o) == Thumbnail(w, r1, tv, call.result.value, job, o))
  {
    var tv := TempVideo(o.tempVideo.value);
    var r := Run(w.(files := w.files + {tv}), [CreateFile(tv)], [tv]);
    assert Inv(w, job, o, tv, r);
    var call := Storage.Upload(job.env, job.videoKey, Bucket, o.readVideo, o.videoReply);
    r1 := Record(r, call, job.videoKey);
  }

  /** Once the video is stored, no later failure removes it: the handler
      answers 500 with no row and leaves the object orphaned. */
  lemma LaterFailureOrphansVideo(w: World, form: UploadForm, ctx: Option<Auth.ClaimValue>, env: Storage.Env, o: IngestOracle)
    requires Fresh(w, o) && Admitted(form, ctx, o)
    requires o.tempVideo.Ok? && o.copyVideo.Done? && o.openVideo.Done?
    requires Storage.Upload(env, JobOf(form, ctx, env, o).videoKey, Bucket, o.readVideo, o.videoReply).result.Ok?
    ensures ObjectKey(Bucket, JobOf(form, ctx, env, o).videoKey) in UploadDrop(w, form, ctx, env, o).world.objects
    ensures UploadDrop(w, form, ctx, env, o).response.status != CreatedStatus ==>
              UploadDrop(w, form, ctx, env, o).response.status == ServerError &&
              UploadDrop(w, form, ctx, env, o).world.drops == w.drops
  {
    var job := JobOf(form, ctx, env, o);
    assert UploadDrop(w, form, ctx, env, o) == SaveVideo(w, job, o);
    var r1 := VideoUploadTrace(w, job, o);
  }

  /** A failing insert comes after both uploads: both objects stay behind. */
  lemma FailedInsertOrphansBoth(w: World, form: UploadForm, ctx: Option<Auth.ClaimValue>, env: Storage.Env, o: IngestOracle)
    requires Fresh(w, o) && Admitted(form, ctx, o)
    requires o.tempVideo.Ok? && o.copyVideo.Done? && o.openVideo.Done?
    requires Storage.Upload(env, JobOf(form, ctx, env, o).videoKey, Bucket, o.readVideo, o.videoReply).result.Ok?
    requires FrameReady(o, ThumbFile(o.thumbName) in w.files)
    requires Storage.Upload(env, ThumbKey(o.thumbId), Bucket, o.readThumb, o.thumbReply).result.Ok?
    requires o.insert.Fail?
    ensures UploadDrop(w, form, ctx, env, o).response == Fault(ServerError, "Failed to insert drop: " + o.insert.error)
    ensures Keys(JobOf(form, ctx, env, o), o) <= UploadDrop(w, form, ctx, env, o).world.objects
    ensures UploadDrop(w, form, ctx, env, o).world.drops == w.drops
  {
    var job := JobOf(form, ctx, env, o);
    assert UploadDrop(w, form, ctx, env, o) == SaveVideo(w, job, o);
    var r1 := VideoUploadTrace(w, job, o);
    var tv := TempVideo(o.tempVideo.value);
    var videoUrl := Storage.Upload(env, job.videoKey, Bucket, o.readVideo, o.videoReply).result.value;
    FfmpegSucceeds(w, r1, tv, videoUrl, job, o);
  }

  /** A failed video upload: the staging, at most the upload request, and
      the removal of the temp video. */
  lemma VideoFailPrefix(w: World, job: Job, o: IngestOracle) returns (k: nat)
    requires Fresh(w, o) && o.tempVideo.Ok? && o.copyVideo.Done? && o.openVideo.Done?
    requires Storage.Upload(job.env, job.videoKey, Bucket, o.readVideo, o.videoReply).result.Err?
    ensures var tv := TempVideo(o.tempVideo.value);
            var P := Pipeline(job, o, tv, ThumbFile(o.thumbName) in w.files);
            k <= |P| && SaveVideo(w, job, o).trace == P[..k] + Removals([tv])
  {
    var tv := TempVideo(o.tempVideo.value);
    var P := Pipeline(job, o, tv, ThumbFile(o.thumbName) in w.files);
    var r1 := VideoUploadTrace(w, job, o);
    var call := Storage.Upload(job.env, job.videoKey, Bucket, o.readVideo, o.videoReply);
    k := 1 + |Sent(call)|;
    assert P[..k] == [CreateFile(tv)] + Sent(call);
  }

  /** A stored video: the staging, the upload, then the thumbnail stages
      up to the failing one and the removals. */
  lemma VideoOkPrefix(w: World, job: Job, o: IngestOracle) returns (k: nat, cleanup: seq<Path>)
    requires Fresh(w, o) && o.tempVideo.Ok? && o.copyVideo.Done? && o.openVideo.Done?
    requires Storage.Upload(job.env, job.videoKey, Bucket, o.readVideo, o.videoReply).result.Ok?
    ensures var tv := TempVideo(o.tempVideo.value);
            var P := Pipeline(job, o, tv, ThumbFile(o.thumbName) in w.files);
            && k <= |P|
            && SaveVideo(w, job, o).trace == P[..k] + Removals(cleanup)
            && (cleanup == [tv] || cleanup == [ThumbFile(o.thumbName), tv])
  {
    var tv := TempVideo(o.tempVideo.value);
    var stale := ThumbFile(o.thumbName) in w.files;
    var P := Pipeline(job, o, tv, stale);
    var r1 := VideoUploadTrace(w, job, o);
    var call := Storage.Upload(job.env, job.videoKey, Bucket, o.readVideo, o.videoReply);
    assert (ThumbFile(o.thumbName) in r1.world.files) == stale;
    var j, c := ThumbnailTrace(w, r1, tv, call.result.value, job, o);
    k, cleanup := 2 + j, c;
    var T := ThumbStages(job, o, tv, stale);
    assert SaveVideo(w, job, o).trace == r1.trace + T[..j] + Removals(c);
    assert r1.trace == [CreateFile(tv), Http(Storage.UploadRequest(job.env, Bucket, job.videoKey))];
    PipelineAfterUpload(job, o, tv, stale, j);
  }

  /** Cutting `Pipeline` inside the thumbnail stages. */
  lemma PipelineAfterUpload(job: Job, o: IngestOracle, tv: Path, stale: bool, j: nat)
    requires j <= |ThumbStages(job, o, tv, stale)|
    ensures 2 + j <= |Pipeline(job, o, tv, stale)|
    ensures Pipeline(job, o, tv, stale)[..2 + j] ==
              [CreateFile(tv), Http(Storage.UploadRequest(job.env, Bucket, job.videoKey))] + ThumbStages(job, o, tv, stale)[..j]
  {
  }

  /** Whatever fails, the handler's effects are a prefix of `Pipeline`
      followed by the deferred removals of its temp files, thumbnail first. */
  lemma PipelineOrder(w: World, form: UploadForm, ctx: Option<Auth.ClaimValue>, env: Storage.Env, o: IngestOracle)
      returns (k: nat, cleanup: seq<Path>)
    requires Fresh(w, o) && Admitted(form, ctx, o)
    ensures o.tempVideo.Err? ==> UploadDrop(w, form, ctx, env, o).trace == []
    ensures o.tempVideo.Ok? ==>
              var tv := TempVideo(o.tempVideo.value);
              var P := Pipeline(JobOf(form, ctx, env, o), o, tv, ThumbFile(o.thumbName) in w.files);
              && k <= |P|
              && UploadDrop(w, form, ctx, env, o).trace == P[..k] + Removals(cleanup)
              && (cleanup == [tv] || cleanup == [ThumbFile(o.thumbName), tv])
  {
    var job := JobOf(form, ctx, env, o);
    assert UploadDrop(w, form, ctx, env, o) == SaveVideo(w, job, o);
    if o.tempVideo.Err? {
      return 0, [];
    }
    var tv := TempVideo(o.tempVideo.value);
    if o.copyVideo.Fail? || o.openVideo.Fail? {
      SaveVideoStops(w, job, o);
      k, cleanup := 1, [tv];
      assert Pipeline(job, o, tv, ThumbFile(o.thumbName) in w.files)[..k] == [CreateFile(tv)];
    } else if Storage.Upload(job.env, job.videoKey, Bucket, o.readVideo, o.videoReply).result.Err? {
      k := VideoFailPrefix(w, job, o);
      cleanup := [tv];
    } else {
      k, cleanup := VideoOkPrefix(w, job, o);
    }
  }
}
