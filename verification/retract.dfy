/** The drop delete handler (`DeleteDropHandler`,
    internal/handlers/drop_handlers.go): caller check, lookup, ownership
    gate, best-effort deletion of both stored objects, then the row delete.
    The database and the storage transport are oracles in `RetractOracle`. */
module Retract {
  import opened Common
  import opened Records
  import opened Store
  import Text
  import Storage
  import Auth

  /** The answers of everything outside the handler: whether the lookup
      query succeeded, the transport's reply to each delete request, and the
      outcome of the row delete. */
  datatype RetractOracle = RetractOracle(
    lookupOk: bool,
    videoReply: Storage.Reply,
    thumbReply: Storage.Reply,
    deleteRow: Step)

  const Segment := "/drops/"

  /** The `getPath` closure: the text after the first "/drops/" in a stored
      locator, or "" when it has none. */
  function GetPath(url: string): (path: string)
    ensures Text.IndexOf(url, Segment).None? ==> path == ""
    ensures Text.IndexOf(url, Segment).Some? ==>
              var i := Text.IndexOf(url, Segment).value;
              url == url[..i] + Segment + path
  {
    match Text.IndexOf(url, Segment)
    case None => ""
    case Some(i) => url[i + |Segment|..]
  }

  /** The text between a base URL and the bucket name in a public locator. */
  const PublicPrefix := Storage.PublicPath + Bucket + "/"

  /** A "/drops/" wholly inside the base URL would be one in the base. */
  lemma NoSegmentInBase(base: string, u: string, j: nat)
    requires Text.IndexOf(base, Segment).None?
    requires base <= u && j + |Segment| <= |base|
    ensures !Text.OccursAt(u, Segment, j)
  {
    if Text.OccursAt(u, Segment, j) {
      assert base[j..j + |Segment|] == u[j..j + |Segment|];
      assert Text.OccursAt(base, Segment, j);
    }
  }

  /** A "/drops/" straddling the end of the base URL needs the base to end
      in "/drops", since the character after the base is a '/'. */
  lemma StraddlingNeedsSuffix(base: string, u: string, j: nat)
    requires base <= u && |base| < |u| && u[|base|] == '/'
    requires j < |base| < j + |Segment|
    requires Text.OccursAt(u, Segment, j)
    ensures Text.EndsWith(base, "/drops")
  {
    var d := |base| - j;
    assert u[j..j + |Segment|] == Segment;
    assert u[j + d] == Segment[d] == '/';
    assert forall m :: 1 <= m < 6 ==> Segment[m] != '/';
    assert d == 6;
    assert base[j..] == u[j..j + 6] by {
      forall m | j <= m < |base|
        ensures base[m] == u[m]
      {
      }
    }
    assert u[j..j + 6] == Segment[..6] == "/drops";
  }

  /** The fixed public path has no 'd', so no "/drops/" can start inside it. */
  lemma NoDInPublicPath()
    ensures forall m :: 0 <= m < |Storage.PublicPath| ==> Storage.PublicPath[m] != 'd'
  {
  }

  /** Within the public path only the trailing "/drops/" matches. */
  lemma NoSegmentInPrefix(base: string, u: string, j: nat)
    requires |base| + |PublicPrefix| <= |u|
    requires u[|base|..|base| + |PublicPrefix|] == PublicPrefix
    requires |base| <= j < |base| + |Storage.PublicPath| - 1
    ensures !Text.OccursAt(u, Segment, j)
  {
    NoDInPublicPath();
    var m := j + 1 - |base|;
    assert u[j + 1] == PublicPrefix[m] == Storage.PublicPath[m];
    assert u[j + 1] != Segment[1];
  }

  /** `getPath` inverts the public-URL scheme for the drops bucket, as long
      as the base URL itself neither contains "/drops/" nor ends in "/drops". */
  lemma GetPathInvertsPublicUrl(base: string, key: string)
    requires Text.IndexOf(base, Segment).None?
    requires !Text.EndsWith(base, "/drops")
    ensures GetPath(Storage.PublicUrl(base, Bucket, key)) == key
  {
    var u := Storage.PublicUrl(base, Bucket, key);
    var i := |base| + |Storage.PublicPath| - 1;
    assert u == base + PublicPrefix + key;
    assert base <= u;
    assert u[|base|..|base| + |PublicPrefix|] == PublicPrefix;
    assert Text.OccursAt(u, Segment, i) by {
      assert u[i..i + |Segment|] == PublicPrefix[|Storage.PublicPath| - 1..];
    }
    forall j: nat | j < i
      ensures !Text.OccursAt(u, Segment, j)
    {
      if j + |Segment| <= |base| {
        NoSegmentInBase(base, u, j);
      } else if j < |base| {
        if Text.OccursAt(u, Segment, j) {
          StraddlingNeedsSuffix(base, u, j);
        }
      } else {
        NoSegmentInPrefix(base, u, j);
      }
    }
    Text.IndexOfIs(u, Segment, i);
    assert u[i + |Segment|..] == key;
  }

  /** The objects of a drop the handler may delete. */
  function ObjectsOf(d: Drop): set<ObjectKey>
  {
    {ObjectKey(Bucket, GetPath(d.videoUrl)), ObjectKey(Bucket, GetPath(d.thumbnail))}
  }

  /** One best-effort storage delete: skipped for an empty key, its error
      discarded. */
  function DeleteBestEffort(objects: set<ObjectKey>, trace: seq<Effect>, env: Storage.Env, key: string, reply: Storage.Reply)
    : (r: (set<ObjectKey>, seq<Effect>))
    ensures key == "" ==> r == (objects, trace)
    ensures objects - {ObjectKey(Bucket, key)} <= r.0 <= objects
    ensures key != "" ==> r.1 == trace + Sent(Storage.Remove(env, key, Bucket, reply))
    ensures key != "" && Storage.Remove(env, key, Bucket, reply).result.Ok? ==> r.0 == objects - {ObjectKey(Bucket, key)}
    ensures key != "" && Storage.Remove(env, key, Bucket, reply).result.Err? ==> r.0 == objects
  {
    if key == "" then (objects, trace)
    else
      var call := Storage.Remove(env, key, Bucket, reply);
      (if call.result.Ok? then objects - {ObjectKey(Bucket, key)} else objects, trace + Sent(call))
  }

  /** The caller is a string, the lookup found the drop, and the caller
      owns it: the handler goes on to delete. */
  predicate Owner(w: World, dropId: string, ctx: Option<Auth.ClaimValue>, o: RetractOracle)
  {
    ctx.Some? && ctx.value.Str? && o.lookupOk && dropId in w.drops && w.drops[dropId].userId == ctx.value.s
  }

  /** `DeleteDropHandler`, called with the context value `userId` that the
      auth middleware set. */
  function DeleteDrop(w: World, dropId: string, ctx: Option<Auth.ClaimValue>, env: Storage.Env, o: RetractOracle): (out: Outcome)
    // Caller checks come before any lookup.
    ensures ctx.None? <==> out.response == Fault(Unauthorized, "User not authenticated")
    ensures ctx.Some? && !ctx.value.Str? <==> out.response == Fault(ServerError, "Invalid user ID in context")
    ensures ctx.None? || !ctx.value.Str? ==> Untouched(w, out)
    // Not found and not the owner: one lookup, no storage call, no change.
    ensures out.response.status == NotFound <==> ctx.Some? && ctx.value.Str? && (!o.lookupOk || dropId !in w.drops)
    ensures out.response.status == Forbidden <==>
              ctx.Some? && ctx.value.Str? && o.lookupOk && dropId in w.drops && w.drops[dropId].userId != ctx.value.s
    ensures out.response.status in {NotFound, Forbidden} ==> out.world == w && out.trace == [LookupDrop(dropId)]
    // The owner: storage deletes are attempted, their failures ignored, and
    // only the row delete decides the answer.
    ensures Owner(w, dropId, ctx, o) <==> out.response.status in {NoContent, ServerError} && !(ctx.Some? && !ctx.value.Str?)
    ensures Owner(w, dropId, ctx, o) ==>
              && w.objects - ObjectsOf(w.drops[dropId]) <= out.world.objects <= w.objects
              && out.world.files == w.files
              && |out.trace| >= 2 && out.trace[0] == LookupDrop(dropId) && out.trace[|out.trace| - 1] == DeleteDropRow(dropId)
    ensures Owner(w, dropId, ctx, o) && o.deleteRow.Fail? ==>
              out.response == Fault(ServerError, "Failed to delete drop: " + o.deleteRow.error)
    ensures DeleteDropRow(dropId) in out.trace <==> Owner(w, dropId, ctx, o)
    ensures out.response.status == NoContent <==>
              ctx.Some? && ctx.value.Str? && o.lookupOk && dropId in w.drops && w.drops[dropId].userId == ctx.value.s &&
              o.deleteRow.Done?
    ensures out.response.status == NoContent ==> out.response.body == NoBody && out.world.drops == w.drops - {dropId}
    ensures out.response.status != NoContent ==> out.world.drops == w.drops
  {
    if ctx.None? then Outcome(Fault(Unauthorized, "User not authenticated"), w, [])
    else if !ctx.value.Str? then Outcome(Fault(ServerError, "Invalid user ID in context"), w, [])
    else
      var looked := [LookupDrop(dropId)];
      if !o.lookupOk || dropId !in w.drops then Outcome(Fault(NotFound, "Drop not found"), w, looked)
      else if w.drops[dropId].userId != ctx.value.s then
        Outcome(Fault(Forbidden, "You do not have permission to delete this drop"), w, looked)
      else
        var d := w.drops[dropId];
        var afterVideo := DeleteBestEffort(w.objects, looked, env, GetPath(d.videoUrl), o.videoReply);
        var afterThumb := DeleteBestEffort(afterVideo.0, afterVideo.1, env, GetPath(d.thumbnail), o.thumbReply);
        var w1 := w.(objects := afterThumb.0);
        var trace := afterThumb.1 + [DeleteDropRow(dropId)];
        if o.deleteRow.Fail? then
          var message := "Failed to delete drop: " + o.deleteRow.error;
          assert message[0] == 'F';
          Outcome(Fault(ServerError, message), w1, trace)
        else Outcome(Response(NoContent, NoBody), w1.(drops := w.drops - {dropId}), trace)
  }

  /** Storage faults never change what the caller is told, nor whether the
      row goes. */
  lemma StorageFaultsIgnored(w: World, dropId: string, ctx: Option<Auth.ClaimValue>, env: Storage.Env,
                             o: RetractOracle, video: Storage.Reply, thumb: Storage.Reply)
    ensures DeleteDrop(w, dropId, ctx, env, o.(videoReply := video, thumbReply := thumb)).response ==
            DeleteDrop(w, dropId, ctx, env, o).response
    ensures DeleteDrop(w, dropId, ctx, env, o.(videoReply := video, thumbReply := thumb)).world.drops ==
            DeleteDrop(w, dropId, ctx, env, o).world.drops
  {
  }

  /** The storage requests the owner's retraction sends are deletes of the
      drop's two keys, each only when its key is not empty. */
  lemma RetractionRequests(w: World, dropId: string, ctx: Option<Auth.ClaimValue>, env: Storage.Env, o: RetractOracle)
    requires ctx.Some? && ctx.value.Str? && o.lookupOk && dropId in w.drops && w.drops[dropId].userId == ctx.value.s
    requires Storage.Configured(env) && !o.videoReply.Unbuildable? && !o.thumbReply.Unbuildable?
    ensures var d := w.drops[dropId];
            var v := GetPath(d.videoUrl);
            var t := GetPath(d.thumbnail);
            DeleteDrop(w, dropId, ctx, env, o).trace ==
              [LookupDrop(dropId)]
              + (if v != "" then [Http(Storage.DeleteRequest(env, Bucket, v))] else [])
              + (if t != "" then [Http(Storage.DeleteRequest(env, Bucket, t))] else [])
              + [DeleteDropRow(dropId)]
  {
  }
}
