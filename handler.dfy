/**
 * The sticker-set download handler: the batch manager that greedily packs
 * converted stickers into archives below 50 MB, the per-item work of a
 * download worker with its finished/failed accounting, the upload of one
 * batch, and the end of a run.
 *
 * The methods of `BatchManager` run under its mutex in the source; here each
 * runs atomically, one after another. File-system, cache, Telegram and
 * converter-process effects are given as outcomes (`Fetch`, `UploadEnv`).
 */
module Handler {
  import opened Wrappers
  import opened Format
  import opened Batching
  import Convert

  // ---- Names ----

  /** `"%s_batch_%d"`: the folder the files of batch `index` are moved into. */
  function BatchFolder(folderName: string, index: nat): string {
    folderName + "_batch_" + Decimal(index)
  }

  /** `"%s_part-%d.zip"`: the archive of batch `index`. */
  function ZipPath(folderName: string, index: nat): string {
    folderName + "_part-" + Decimal(index) + ".zip"
  }

  /** `"%s/%s.%s"`: where a worker puts the converted sticker. */
  function OutputPath(folderName: string, uniqueId: string, ext: string): string {
    folderName + "/" + uniqueId + "." + ext
  }

  /** `"%s/%s.json"`: where the decompressed animation of a TGS sticker is kept. */
  function JsonPath(folderName: string, uniqueId: string): string {
    folderName + "/" + uniqueId + ".json"
  }

  /**
   * Every batch index gets its own folder and its own archive, and no folder,
   * archive or converted sticker of a run shares a name with another kind.
   */
  lemma BatchNamesDistinct(folderName: string, i: nat, j: nat, uniqueId: string, ext: string)
    ensures i != j ==> BatchFolder(folderName, i) != BatchFolder(folderName, j)
    ensures i != j ==> ZipPath(folderName, i) != ZipPath(folderName, j)
    ensures BatchFolder(folderName, i) != ZipPath(folderName, j)
    ensures OutputPath(folderName, uniqueId, ext) != BatchFolder(folderName, i)
    ensures OutputPath(folderName, uniqueId, ext) != ZipPath(folderName, j)
  {
    var n := |folderName|;
    var bi, bj, zi, zj := BatchFolder(folderName, i), BatchFolder(folderName, j), ZipPath(folderName, i), ZipPath(folderName, j);
    var o := OutputPath(folderName, uniqueId, ext);
    assert bi[n] == '_' && zj[n] == '_' && o[n] == '/';
    assert bi[n + 1] == 'b' && zj[n + 1] == 'p';
    if i != j && bi == bj {
      assert bi[n + 7..] == Decimal(i) && bj[n + 7..] == Decimal(j);
      DecimalInjective(i, j);
    }
    if i != j && zi == zj {
      var di, dj := Decimal(i), Decimal(j);
      assert zi[n + 6..|zi| - 4] == di;
      assert zj[n + 6..|zj| - 4] == dj;
      DecimalInjective(i, j);
    }
  }

  /** The converted file is a PNG for a WebP download and a GIF for everything else. */
  function OutputExtension(downloadedExt: string): (ext: string)
    ensures ext == "png" <==> downloadedExt == "webp"
    ensures ext == "png" || ext == "gif"
  {
    if downloadedExt == "webp" then "png" else "gif"
  }

  // ---- Uploading one batch ----

  /** What the file system and Telegram answer while one batch is uploaded. */
  datatype UploadEnv = UploadEnv(
    mkdirOk: string -> bool,       // creating the batch folder
    stat: string -> Option<nat>,   // size of a file, None when it cannot be stat'ed
    renameOk: string -> bool,      // moving a file into the batch folder
    copyOk: string -> bool,        // the copy fallback when the move fails
    compressOk: string -> bool,    // writing the archive
    sendOk: string -> bool)        // sending the archive as a document

  /** Bytes that reach the batch folder for one file: its size if it could be stat'ed and moved or copied. */
  function MovedSize(path: string, env: UploadEnv): nat {
    match env.stat(path)
    case None => 0
    case Some(size) => if env.renameOk(path) || env.copyOk(path) then size else 0
  }

  function MovedBytes(paths: seq<string>, env: UploadEnv): nat {
    if paths == [] then 0 else MovedBytes(paths[..|paths| - 1], env) + MovedSize(paths[|paths| - 1], env)
  }

  /** When `uploadBatchFiles` reports success. */
  predicate UploadSucceeds(folderName: string, paths: seq<string>, index: nat, env: UploadEnv) {
    && env.mkdirOk(BatchFolder(folderName, index))
    && |paths| > 0
    && MovedBytes(paths, env) > 0
    && env.compressOk(ZipPath(folderName, index))
    && env.sendOk(ZipPath(folderName, index))
  }

  /** How many of the batches, flushed in this order under the indices 0, 1, 2, ..., were uploaded. */
  function Uploads(folderName: string, flushed: seq<seq<Artifact>>, env: UploadEnv): (n: nat)
    ensures n <= |flushed|
  {
    if flushed == [] then 0
    else
      var k := |flushed| - 1;
      Uploads(folderName, flushed[..k], env) + (if UploadSucceeds(folderName, Paths(flushed[k]), k, env) then 1 else 0)
  }

  /** One more flushed batch adds one upload exactly when that batch was uploaded under the next index. */
  lemma UploadsAppend(folderName: string, flushed: seq<seq<Artifact>>, batch: seq<Artifact>, env: UploadEnv)
    ensures Uploads(folderName, flushed + [batch], env) ==
      Uploads(folderName, flushed, env) + (if UploadSucceeds(folderName, Paths(batch), |flushed|, env) then 1 else 0)
  {
    assert (flushed + [batch])[..|flushed|] == flushed;
  }

  /** `uploadBatchFiles`: an empty batch, or one whose files moved no bytes, is never uploaded. */
  method UploadBatchFiles(folderName: string, filePaths: seq<string>, batchIndex: nat, env: UploadEnv)
    returns (ok: bool)
    ensures ok <==> UploadSucceeds(folderName, filePaths, batchIndex, env)
  {
    var batchFolder := BatchFolder(folderName, batchIndex);
    if !env.mkdirOk(batchFolder) {
      return false;
    }
    var actualSize := 0;
    for i := 0 to |filePaths|
      invariant actualSize == MovedBytes(filePaths[..i], env)
    {
      var src := filePaths[i];
      assert filePaths[..i + 1] == filePaths[..i] + [src];
      var info := env.stat(src);
      if info.None? {
        continue;
      }
      if !env.renameOk(src) {
        if !env.copyOk(src) {
          continue;
        }
      }
      actualSize := actualSize + info.value;
    }
    assert filePaths[..|filePaths|] == filePaths;
    if |filePaths| == 0 || actualSize == 0 {
      return false;
    }
    var zipFilePath := ZipPath(folderName, batchIndex);
    if !env.compressOk(zipFilePath) {
      return false;
    }
    if !env.sendOk(zipFilePath) {
      return false;
    }
    return true;
  }

  /** A batch whose files are all still in place moves exactly the bytes it was registered with. */
  lemma {:induction false} MovedBytesOfIntactBatch(batch: seq<Artifact>, env: UploadEnv)
    requires forall i :: 0 <= i < |batch| ==>
      env.stat(batch[i].path) == Some(batch[i].size) && (env.renameOk(batch[i].path) || env.copyOk(batch[i].path))
    ensures MovedBytes(Paths(batch), env) == Sum(batch)
  {
    if batch != [] {
      var init := batch[..|batch| - 1];
      MovedBytesOfIntactBatch(init, env);
      assert Paths(batch)[..|batch| - 1] == Paths(init);
    }
  }

  // ---- The batch manager ----

  /** Registering one artifact is one step of the greedy policy. */
  lemma StepTracked(registered: seq<Artifact>, flushed: seq<seq<Artifact>>, open: seq<Artifact>, a: Artifact, max: int)
    requires Pack(registered, max) == Packing(flushed, open)
    ensures MustFlush(open, a.size, max) ==> Pack(registered + [a], max) == Packing(flushed + [open], [a])
    ensures !MustFlush(open, a.size, max) ==> Pack(registered + [a], max) == Packing(flushed, open + [a])
  {
    PackAppend(registered, a, max);
  }

  class BatchManager {
    var currentBatchSize: int
    var currentBatchFiles: seq<string>
    var batchIndex: nat
    const maxBatchSize: int
    var uploadedParts: nat

    /** The open batch with the sizes its files were registered with. */
    ghost var Contents: seq<Artifact>
    /** Every artifact registered through the worker's retry loop, in order. */
    ghost var Registered: seq<Artifact>
    /** The batches detached by mid-run flushes, in order. */
    ghost var Flushed: seq<seq<Artifact>>

    ghost predicate Valid()
      reads this`currentBatchFiles, this`currentBatchSize, this`Contents
    {
      && Paths(Contents) == currentBatchFiles
      && currentBatchSize == Sum(Contents)
      && WithinLimit(Contents, maxBatchSize)
    }

    /** The manager is where the greedy policy says it is after the registrations so far. */
    ghost predicate Tracks()
      reads this`Registered, this`Flushed, this`Contents, this`batchIndex
    {
      Pack(Registered, maxBatchSize) == Packing(Flushed, Contents) && batchIndex == |Flushed|
    }

    /** `newBatchManager`. */
    constructor ()
      ensures Valid() && Tracks()
      ensures currentBatchFiles == [] && currentBatchSize == 0 && batchIndex == 0 && uploadedParts == 0
      ensures maxBatchSize == MaxBatchSize && Registered == []
    {
      currentBatchSize := 0;
      currentBatchFiles := [];
      batchIndex := 0;
      maxBatchSize := MaxBatchSize;
      uploadedParts := 0;
      Contents, Registered, Flushed := [], [], [];
    }

    /**
     * `addFileAndCheckAtomic`: true means "flush first and try again", and
     * then nothing changes; false means the file joined the batch.
     */
    method AddFileAndCheck(filePath: string, size: nat) returns (mustFlush: bool)
      requires Valid()
      modifies this`currentBatchSize, this`currentBatchFiles, this`Contents
      ensures Valid()
      ensures mustFlush == MustFlush(old(Contents), size, maxBatchSize)
      ensures old(currentBatchFiles) == [] ==> !mustFlush
      ensures mustFlush ==>
        currentBatchFiles == old(currentBatchFiles) && currentBatchSize == old(currentBatchSize) &&
        Contents == old(Contents)
      ensures !mustFlush ==>
        currentBatchFiles == old(currentBatchFiles) + [filePath] &&
        currentBatchSize == old(currentBatchSize) + size && Contents == old(Contents) + [Artifact(filePath, size)]
    {
      var willExceed := currentBatchSize + size >= maxBatchSize;
      var isNonEmpty := |currentBatchFiles| > 0;
      if willExceed && isNonEmpty {
        return true;
      }
      SumAppend(Contents, Artifact(filePath, size));
      PathsAppend(Contents, Artifact(filePath, size));
      currentBatchSize := currentBatchSize + size;
      currentBatchFiles := currentBatchFiles + [filePath];
      Contents := Contents + [Artifact(filePath, size)];
      return false;
    }

    /** The detach at the start of `uploadBatch`: take the batch and hand out a fresh index. */
    method DetachForUpload() returns (files: seq<string>, index: nat)
      requires Valid()
      modifies this`currentBatchSize, this`currentBatchFiles, this`batchIndex, this`Contents
      ensures Valid()
      ensures files == old(currentBatchFiles) && index == old(batchIndex)
      ensures currentBatchFiles == [] && currentBatchSize == 0 && Contents == []
      ensures batchIndex == old(batchIndex) + 1
    {
      files := currentBatchFiles;
      currentBatchFiles := [];
      currentBatchSize := 0;
      index := batchIndex;
      batchIndex := batchIndex + 1;
      Contents := [];
    }

    /** The terminal detach of a completed run: take the batch, but keep the index. */
    method DetachFinal() returns (files: seq<string>, index: nat)
      requires Valid()
      modifies this`currentBatchSize, this`currentBatchFiles, this`Contents
      ensures Valid()
      ensures files == old(currentBatchFiles) && index == old(batchIndex)
      ensures currentBatchFiles == [] && currentBatchSize == 0 && Contents == []
    {
      files := currentBatchFiles;
      index := batchIndex;
      currentBatchFiles := [];
      currentBatchSize := 0;
      Contents := [];
    }

    /** `uploadBatch`: detach, upload, and count the part only when the upload succeeded. */
    method UploadBatch(folderName: string, env: UploadEnv) returns (files: seq<string>, index: nat, ok: bool)
      requires Valid()
      modifies this`currentBatchSize, this`currentBatchFiles, this`batchIndex, this`Contents, this`uploadedParts
      ensures Valid()
      ensures files == old(currentBatchFiles) && index == old(batchIndex)
      ensures currentBatchFiles == [] && currentBatchSize == 0 && Contents == []
      ensures batchIndex == old(batchIndex) + 1
      ensures ok <==> UploadSucceeds(folderName, files, index, env)
      ensures uploadedParts == old(uploadedParts) + (if ok then 1 else 0)
    {
      files, index := DetachForUpload();
      ok := UploadBatchFiles(folderName, files, index, env);
      if ok {
        uploadedParts := uploadedParts + 1;
      }
    }

    /**
     * The worker's retry loop: offer the file, flush whenever told to, and
     * offer it again. The file always ends up in the open batch, after at
     * most one flush.
     */
    method Offer(folderName: string, path: string, size: nat, env: UploadEnv)
      returns (flushed: bool, flushIndex: nat, uploaded: bool)
      requires Valid()
      modifies this`currentBatchSize, this`currentBatchFiles, this`batchIndex, this`Contents, this`uploadedParts
      ensures Valid()
      ensures flushed <==> MustFlush(old(Contents), size, maxBatchSize)
      ensures !flushed ==> Contents == old(Contents) + [Artifact(path, size)] && batchIndex == old(batchIndex)
      ensures flushed ==> Contents == [Artifact(path, size)] && batchIndex == old(batchIndex) + 1
      ensures flushed ==> flushIndex == old(batchIndex)
      ensures flushed ==> uploaded == UploadSucceeds(folderName, old(currentBatchFiles), flushIndex, env)
      ensures !flushed ==> !uploaded
      ensures uploadedParts == old(uploadedParts) + (if uploaded then 1 else 0)
    {
      ghost var open0, files0, index0, parts0 := Contents, currentBatchFiles, batchIndex, uploadedParts;
      ghost var mustFlush0 := MustFlush(open0, size, maxBatchSize);
      flushed, flushIndex, uploaded := false, 0, false;
      var mustFlush := AddFileAndCheck(path, size);
      while mustFlush
        invariant Valid()
        invariant mustFlush ==> !flushed && mustFlush0
        invariant mustFlush ==> Contents == open0 && batchIndex == index0 && uploadedParts == parts0
        invariant !mustFlush ==> flushed == mustFlush0
        invariant !mustFlush && !flushed ==> Contents == open0 + [Artifact(path, size)] && batchIndex == index0
        invariant !mustFlush && !flushed ==> uploadedParts == parts0 && !uploaded
        invariant flushed ==> Contents == [Artifact(path, size)] && batchIndex == index0 + 1 && flushIndex == index0
        invariant flushed ==> uploaded == UploadSucceeds(folderName, files0, index0, env)
        invariant flushed ==> uploadedParts == parts0 + (if uploaded then 1 else 0)
        decreases if mustFlush then 1 else 0
      {
        var files, index, ok := UploadBatch(folderName, env);
        flushed, flushIndex, uploaded := true, index, ok;
        mustFlush := AddFileAndCheck(path, size);
      }
    }

    /**
     * A registration through the retry loop advances the manager by exactly
     * one step of the greedy policy.
     */
    method Register(folderName: string, path: string, size: nat, env: UploadEnv)
      returns (flushed: bool, flushIndex: nat, uploaded: bool)
      requires Valid() && Tracks()
      modifies this
      ensures Valid() && Tracks()
      ensures Registered == old(Registered) + [Artifact(path, size)]
      ensures flushed ==> Flushed == old(Flushed) + [old(Contents)] && flushIndex == |old(Flushed)|
      ensures !flushed ==> Flushed == old(Flushed)
      ensures flushed ==> uploaded == UploadSucceeds(folderName, Paths(old(Contents)), flushIndex, env)
      ensures !flushed ==> !uploaded
      ensures uploadedParts == old(uploadedParts) + (if uploaded then 1 else 0)
      ensures uploadedParts + Uploads(folderName, old(Flushed), env) == old(uploadedParts) + Uploads(folderName, Flushed, env)
    {
      ghost var open0, flushed0 := Contents, Flushed;
      flushed, flushIndex, uploaded := Offer(folderName, path, size, env);
      Record(Artifact(path, size), open0, flushed);
      UploadsAppend(folderName, flushed0, open0, env);
    }

    /** The ghost bookkeeping of one registration: extend the history by one greedy step. */
    ghost method Record(a: Artifact, open0: seq<Artifact>, flushed: bool)
      requires Pack(Registered, maxBatchSize) == Packing(Flushed, open0)
      requires batchIndex == |Flushed| + (if flushed then 1 else 0)
      requires flushed == MustFlush(open0, a.size, maxBatchSize)
      requires Contents == (if flushed then [a] else open0 + [a])
      modifies this`Registered, this`Flushed
      ensures Tracks()
      ensures Registered == old(Registered) + [a]
      ensures Flushed == old(Flushed) + (if flushed then [open0] else [])
    {
      StepTracked(Registered, Flushed, open0, a, maxBatchSize);
      Registered := Registered + [a];
      if flushed {
        Flushed := Flushed + [open0];
      }
    }
  }

  // ---- One run ----

  datatype Sticker = Sticker(fileUniqueId: string)

  /** A downloaded sticker: the temporary file and the extension read off its name. */
  datatype Download = Download(tempPath: string, ext: string)

  /** What the cache, Telegram and the converter process answer for one sticker. */
  datatype Fetch =
    | CacheHit(cachedExt: string, copyOk: bool)
    | CacheMiss(
        getFileOk: bool,
        download: Option<Download>,                     // None: the download failed
        firstFrame: Option<array2<Convert.Alpha>>,      // what the WebM alpha probe decodes
        processOk: bool)                                // the converter process succeeded

  /** The conversion a worker asks for after a cache miss. */
  function ConvertTaskFor(folderName: string, sticker: Sticker, dl: Download, supportTgs: bool): (t: Convert.ConvertTask)
    ensures t.inputFilePath == dl.tempPath && t.inputExtension == dl.ext
    ensures t.preserveJsonPath != "" <==> dl.ext == "tgs" && supportTgs
    ensures Convert.EndsWith(t.outputFilePath, "." + OutputExtension(dl.ext))
  {
    var json := JsonPath(folderName, sticker.fileUniqueId);
    assert json[|json| - 1] == 'n';
    var out := OutputPath(folderName, sticker.fileUniqueId, OutputExtension(dl.ext));
    assert out[|out| - 4..] == "." + OutputExtension(dl.ext);
    Convert.ConvertTask(
      dl.tempPath, dl.ext, out,
      if dl.ext == "tgs" && supportTgs then json else "")
  }

  /**
   * The converted file of a cache miss is named `.png` exactly when the
   * download was a WebP, which is exactly when the converter goes on to trim
   * its transparent edges.
   */
  lemma PngOutputIsTrimmed(folderName: string, sticker: Sticker, dl: Download, supportTgs: bool)
    ensures Convert.EndsWith(ConvertTaskFor(folderName, sticker, dl, supportTgs).outputFilePath, ".png") <==>
      ConvertTaskFor(folderName, sticker, dl, supportTgs).inputExtension == "webp"
  {
    var out := ConvertTaskFor(folderName, sticker, dl, supportTgs).outputFilePath;
    if dl.ext != "webp" {
      assert out[|out| - 3] == 'g';
    } else {
      assert out[|out| - 4..] == ".png";
    }
  }

  /** The item is counted as failed: the cached copy, the lookup, the download or the conversion failed. */
  predicate ItemFails(folderName: string, sticker: Sticker, fetch: Fetch, supportTgs: bool) {
    match fetch
    case CacheHit(_, copyOk) => !copyOk
    case CacheMiss(getFileOk, download, _, processOk) =>
      !getFileOk || download.None? ||
      Convert.RejectsTgs(ConvertTaskFor(folderName, sticker, download.value, supportTgs), supportTgs) ||
      !processOk
  }

  /** The converted file of an item that did not fail. */
  function ArtifactPath(folderName: string, sticker: Sticker, fetch: Fetch): string
    requires fetch.CacheHit? || fetch.download.Some?
  {
    match fetch
    case CacheHit(cachedExt, _) => OutputPath(folderName, sticker.fileUniqueId, cachedExt)
    case CacheMiss(_, download, _, _) => OutputPath(folderName, sticker.fileUniqueId, OutputExtension(download.value.ext))
  }

  /** One dequeued item: the sticker, what fetching/converting it yields, and the size `os.Stat` reports. */
  datatype Item = Item(sticker: Sticker, fetch: Fetch, stat: Option<nat>)

  datatype RunOutcome = TimedOut | Uploaded(parts: nat)

  /** The artifact an item registers, if any: a converted file of an item that did not fail, when it can be stat'ed. */
  function ItemArtifacts(folderName: string, item: Item, supportTgs: bool): seq<Artifact> {
    if !ItemFails(folderName, item.sticker, item.fetch, supportTgs) && item.stat.Some?
    then [Artifact(ArtifactPath(folderName, item.sticker, item.fetch), item.stat.value)] else []
  }

  /** How many of the items fail. */
  function FailCount(folderName: string, items: seq<Item>, supportTgs: bool): (n: nat)
    ensures n <= |items|
  {
    if items == [] then 0
    else
      var last := items[|items| - 1];
      FailCount(folderName, items[..|items| - 1], supportTgs) +
      (if ItemFails(folderName, last.sticker, last.fetch, supportTgs) then 1 else 0)
  }

  /** The artifacts the items register, in order. */
  function RunArtifacts(folderName: string, items: seq<Item>, supportTgs: bool): (r: seq<Artifact>)
    ensures |r| <= |items| - FailCount(folderName, items, supportTgs)
  {
    if items == [] then []
    else RunArtifacts(folderName, items[..|items| - 1], supportTgs) + ItemArtifacts(folderName, items[|items| - 1], supportTgs)
  }

  /** Taking one more item of a run adds that item's failure and artifact. */
  lemma RunStep(folderName: string, items: seq<Item>, i: nat, supportTgs: bool)
    requires i < |items|
    ensures FailCount(folderName, items[..i + 1], supportTgs) == FailCount(folderName, items[..i], supportTgs) +
      (if ItemFails(folderName, items[i].sticker, items[i].fetch, supportTgs) then 1 else 0)
    ensures RunArtifacts(folderName, items[..i + 1], supportTgs) ==
      RunArtifacts(folderName, items[..i], supportTgs) + ItemArtifacts(folderName, items[i], supportTgs)
  {
    assert items[..i + 1][..i] == items[..i];
  }

  /** `downloadTask`. */
  class DownloadTask {
    var finished: nat
    var failed: nat
    const total: nat
    const folderName: string
    const batchManager: BatchManager

    ghost predicate Valid()
      reads this, batchManager
    {
      batchManager.Valid() && batchManager.Tracks() && finished + failed <= total
    }

    constructor (folderName: string, total: nat)
      ensures Valid() && fresh(batchManager)
      ensures this.folderName == folderName && this.total == total && finished == 0 && failed == 0
      ensures batchManager.Registered == [] && batchManager.uploadedParts == 0
      ensures batchManager.maxBatchSize == MaxBatchSize
    {
      this.folderName := folderName;
      this.total := total;
      finished, failed := 0, 0;
      batchManager := new BatchManager();
    }

    /** The supervisor's completion test. */
    predicate Complete()
      reads this
    {
      finished + failed == total
    }

    /**
     * One dequeued item of `downloadWorker`: exactly one of `failed` and
     * `finished` goes up; a converted file that can be stat'ed is registered.
     */
    method ProcessItem(item: Item, supportTgs: bool, env: UploadEnv) returns (uploaded: bool)
      requires Valid() && finished + failed < total
      modifies this, batchManager
      ensures Valid()
      ensures finished + failed == old(finished + failed) + 1
      ensures failed == old(failed) + (if ItemFails(folderName, item.sticker, item.fetch, supportTgs) then 1 else 0)
      ensures batchManager.Registered == old(batchManager.Registered) + ItemArtifacts(folderName, item, supportTgs)
      ensures batchManager.uploadedParts == old(batchManager.uploadedParts) + (if uploaded then 1 else 0)
      ensures uploaded <==>
        |batchManager.Flushed| == |old(batchManager.Flushed)| + 1 &&
        UploadSucceeds(folderName, Paths(batchManager.Flushed[|old(batchManager.Flushed)|]), |old(batchManager.Flushed)|, env)
      ensures batchManager.uploadedParts + Uploads(folderName, old(batchManager.Flushed), env) ==
        old(batchManager.uploadedParts) + Uploads(folderName, batchManager.Flushed, env)
    {
      uploaded := false;
      var outputFilePath: string;
      match item.fetch {
        case CacheHit(cachedExt, copyOk) =>
          outputFilePath := OutputPath(folderName, item.sticker.fileUniqueId, cachedExt);
          if !copyOk {
            failed := failed + 1;
            return;
          }
        case CacheMiss(getFileOk, download, firstFrame, processOk) =>
          if !getFileOk || download.None? {
            failed := failed + 1;
            return;
          }
          var task := ConvertTaskFor(folderName, item.sticker, download.value, supportTgs);
          outputFilePath := task.outputFilePath;
          var cmd := Convert.Run(task, supportTgs, firstFrame);
          if cmd.TgsDisabled? || !processOk {
            failed := failed + 1;
            return;
          }
      }
      if item.stat.Some? {
        var _, _, ok := batchManager.Register(folderName, outputFilePath, item.stat.value, env);
        uploaded := ok;
      }
      finished := finished + 1;
    }

    /**
     * The items of a run taken one after another. The supervisor's
     * completion test holds afterwards exactly when every item has been taken.
     */
    method Drain(items: seq<Item>, supportTgs: bool, env: UploadEnv)
      requires Valid() && finished + failed + |items| <= total
      modifies this, batchManager
      ensures Valid()
      ensures finished + failed == old(finished + failed) + |items|
      ensures failed == old(failed) + FailCount(folderName, items, supportTgs)
      ensures finished == old(finished) + |items| - FailCount(folderName, items, supportTgs)
      ensures batchManager.Registered == old(batchManager.Registered) + RunArtifacts(folderName, items, supportTgs)
      ensures batchManager.uploadedParts + Uploads(folderName, old(batchManager.Flushed), env) ==
        old(batchManager.uploadedParts) + Uploads(folderName, batchManager.Flushed, env)
      ensures Complete() <==> old(finished + failed) + |items| == total
    {
      ghost var failed0, registered0 := failed, batchManager.Registered;
      ghost var parts0, uploads0 := batchManager.uploadedParts, Uploads(folderName, batchManager.Flushed, env);
      for i := 0 to |items|
        invariant Valid()
        invariant finished + failed == old(finished + failed) + i
        invariant failed == failed0 + FailCount(folderName, items[..i], supportTgs)
        invariant batchManager.Registered == registered0 + RunArtifacts(folderName, items[..i], supportTgs)
        invariant batchManager.uploadedParts + uploads0 == parts0 + Uploads(folderName, batchManager.Flushed, env)
      {
        TakeNext(items, i, supportTgs, env, failed0, registered0);
      }
      assert items[..|items|] == items;
    }

    /** One turn of the worker's loop over the queue: the i-th item is processed and added to the run's tally. */
    method TakeNext(items: seq<Item>, i: nat, supportTgs: bool, env: UploadEnv, ghost failed0: nat, ghost registered0: seq<Artifact>)
      requires Valid() && i < |items| && finished + failed < total
      requires failed == failed0 + FailCount(folderName, items[..i], supportTgs)
      requires batchManager.Registered == registered0 + RunArtifacts(folderName, items[..i], supportTgs)
      modifies this, batchManager
      ensures Valid()
      ensures finished + failed == old(finished + failed) + 1
      ensures failed == failed0 + FailCount(folderName, items[..i + 1], supportTgs)
      ensures batchManager.Registered == registered0 + RunArtifacts(folderName, items[..i + 1], supportTgs)
      ensures batchManager.uploadedParts + Uploads(folderName, old(batchManager.Flushed), env) ==
        old(batchManager.uploadedParts) + Uploads(folderName, batchManager.Flushed, env)
    {
      RunStep(folderName, items, i, supportTgs);
      var _ := ProcessItem(items[i], supportTgs, env);
    }

    /**
     * The end of a run: after a timeout nothing more is uploaded; otherwise
     * whatever is left is detached without advancing the index and uploaded
     * if it is non-empty.
     */
    method FinishRun(success: bool, env: UploadEnv) returns (outcome: RunOutcome)
      requires Valid()
      modifies batchManager
      ensures batchManager.Valid()
      ensures !success ==> outcome == TimedOut && unchanged(batchManager)
      ensures success ==> batchManager.currentBatchFiles == [] && batchManager.currentBatchSize == 0
      ensures success ==> batchManager.batchIndex == old(batchManager.batchIndex) == |old(batchManager.Flushed)|
      ensures success ==>
        batchManager.uploadedParts == old(batchManager.uploadedParts) +
          (if |old(batchManager.currentBatchFiles)| > 0 &&
              UploadSucceeds(folderName, old(batchManager.currentBatchFiles), old(batchManager.batchIndex), env)
           then 1 else 0)
      ensures success ==> outcome == Uploaded(batchManager.uploadedParts)
    {
      if !success {
        return TimedOut;
      }
      var finalFiles, finalIndex := batchManager.DetachFinal();
      if |finalFiles| > 0 {
        var ok := UploadBatchFiles(folderName, finalFiles, finalIndex, env);
        if ok {
          batchManager.uploadedParts := batchManager.uploadedParts + 1;
        }
      }
      return Uploaded(batchManager.uploadedParts);
    }
  }
}
