/** The abstract world the drop handlers act on — local files, objects in the
    store, rows of the `drops` table — and the trace of effects a handler
    performs, in the order it performs them. */
module Store {
  import opened Common
  import opened Records
  import Storage

  /** A local file the upload handler may create. The temporary video lives
      in the temp directory, thumbnails in its `bitdrop_thumbs`
      subdirectory, so the two kinds never name the same file. */
  datatype Path = TempVideo(name: string) | ThumbFile(name: string)

  datatype ObjectKey = ObjectKey(bucket: string, key: string)

  datatype World = World(files: set<Path>, objects: set<ObjectKey>, drops: map<string, Drop>)

  datatype Effect =
    | CreateFile(path: Path)
    | RemoveFile(path: Path)
    | MakeThumbDir
    | RunFfmpeg(input: Path, output: Path)
    | Http(request: Storage.HttpRequest)
    | InsertDrop(id: string)
    | LookupDrop(id: string)
    | DeleteDropRow(id: string)

  /** What a handler answered, the world it left and what it did. */
  datatype Outcome = Outcome(response: Response, world: World, trace: seq<Effect>)

  const Bucket := "drops"

  /** The effect of a storage call: the request, if one went out. */
  function Sent<T>(c: Storage.Call<T>): seq<Effect>
  {
    if c.sent.Some? then [Http(c.sent.value)] else []
  }

  /** The handler answered without touching anything. */
  predicate Untouched(w: World, out: Outcome)
  {
    out.world == w && out.trace == []
  }

  /** No storage request appears in a trace. */
  predicate NoStorageCalls(trace: seq<Effect>)
  {
    forall i :: 0 <= i < |trace| ==> !trace[i].Http?
  }
}
