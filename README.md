# StickerDownloader: batching and conversion core in Dafny

This project models the core of the sticker-set download handler of
StickerDownloader, a Telegram bot. When a user asks for a whole sticker set,
the bot does the following:

- it downloads every sticker, or reuses a cached conversion;
- it converts each sticker with ffmpeg or rlottie;
- a batch manager packs the converted files greedily into archives whose
  files add up to less than 50 MB, unless the batch is a single file of
  50 MB or more, and each archive is sent as soon as it is full;
- it counts finished and failed stickers until the run is complete.

The model also covers the pure and integer parts of the converter. These are
the ffmpeg argument and filter lists, the alpha probe of a WebM's first frame,
the cropping of transparent edges from a converted PNG, and the names of the
bundled executables.

Files:

- `batching.dfy`: module `Batching`. The packing policy on values.
  `MustFlush` is the decision of `addFileAndCheckAtomic`. `Step` is one
  registration, including the worker's flush-and-retry. `Pack` is a whole run
  of registrations. The lemmas state what the policy promises.
- `handler.dfy`: module `Handler`. The classes `BatchManager` and
  `DownloadTask`, with the fields of the Go structs. `UploadBatchFiles` holds
  the loop that adds up the moved bytes. Also here: the folder, archive and
  output names, the choice of output extension, one worker item
  (`ProcessItem`), and the end of a run (`FinishRun`). The ghost field
  `Registered` holds every artifact registered so far, and `Flushed` holds
  every batch detached mid-run. `BatchManager.Tracks()` ties the live manager
  to `Pack(Registered)`, so the lemmas about `Pack` hold of every run of the
  class.
- `convert.dfy`: module `Convert`. `Run` up to the start of the external
  process, `DetectWebmAlpha`, the scan `OpaqueBox`, `Crop`,
  `TrimTransparentEdges`, `FfmpegFilename` and `RlottieFilename`.
- `format.dfy`: module `Format`. Go's `%d` for non-negative integers, with a
  parser that reads it back.
- `wrappers.dfy`: module `Wrappers`. `Option`.

External effects are inputs to the model:

- The file system and Telegram answers during an upload are the oracle
  functions of `Handler.UploadEnv`.
- The cache, download and converter-process results for one sticker are
  `Handler.Fetch`.
- The PNG decoder's result is an `array2` of 16-bit alpha values. It is
  indexed `img[x, y]`, with its origin at (0, 0), which is where Go's PNG
  decoder puts image bounds.
- GOOS and GOARCH are parameters.

Notes on the code:

- The terminal detach (handler/DownloadStickerSetQuery.go:171-177) does not
  advance `batchIndex`. Only the mid-run detach in `uploadBatch` does
  (`DetachFinal` vs `DetachForUpload`).
- A mid-run flush of an empty batch is not a no-op. `uploadBatch` still
  consumes an index and creates the batch folder before `uploadBatchFiles`
  rejects the empty list. In a sequential run this cannot happen: a flush is
  only requested for a non-empty batch.
- 120 stickers of 6 MB give 14 flushed batches of 8 plus a terminal batch of
  8 (`Batching.SixMegabyteScenario`).
- A sticker whose converted file cannot be stat'ed is still counted as
  finished, but it is never registered in any batch
  (handler/DownloadStickerSetQuery.go:271-283, `ProcessItem`).

## Model

| member | source | states |
|---|---|---|
| `Batching.PackKeepsOrder` | handler/DownloadStickerSetQuery.go:272-279 | Over any sequence of registrations, the flushed batches followed by the open batch are exactly the registered artifacts, in order. Nothing is lost, duplicated or reordered. |
| `Batching.PackWellPacked` | handler/DownloadStickerSetQuery.go:295-307 | Over any sequence of registrations, no flushed batch is empty. Every batch of two or more artifacts has total size below the limit. Every batch was flushed only because the next artifact would have brought it to the limit. |
| `Batching.FlushesFewerThanItems` | handler/DownloadStickerSetQuery.go:272-279 | The retry loop flushes at most once per artifact. A run of n >= 1 registrations flushes fewer than n batches, so there is no livelock. |
| `Batching.OversizedAlone` | handler/DownloadStickerSetQuery.go:298-307 | An artifact whose size is at or above the limit always sits alone in its batch. |
| `Batching.UniformPacking` | handler/DownloadStickerSetQuery.go:298-307 | When all artifacts have size s and exactly k fit below the limit, every flushed batch holds exactly k artifacts, and the open batch holds between 1 and k of them. |
| `Batching.SixMegabyteScenario` | handler/DownloadStickerSetQuery.go:288-293 | With the 50 MB limit, 120 artifacts of 6 MB give 14 flushed batches of 8 and a last batch of 8. |
| `Handler.BatchManager.constructor` | handler/DownloadStickerSetQuery.go:288-293 | A new manager has an empty batch of size 0, index 0, no uploaded parts, and the 50 MB limit. |
| `Handler.BatchManager.AddFileAndCheck` | handler/DownloadStickerSetQuery.go:295-308 | Returns true iff the batch is non-empty and size + current size >= limit, and then changes nothing. Otherwise it appends the path at the end and adds exactly `size`. An empty batch never rejects. The index and the uploaded count never change. The batch invariant is kept. |
| `Handler.BatchManager.DetachForUpload` | handler/DownloadStickerSetQuery.go:311-319 | Returns the old file list and the old index. Resets the list to empty and the size to 0. Sets the index to the old index + 1. |
| `Handler.BatchManager.DetachFinal` | handler/DownloadStickerSetQuery.go:171-177 | Returns the current files and index. Resets the list and the size. Leaves the index unchanged. |
| `Handler.BatchManager.UploadBatch` | handler/DownloadStickerSetQuery.go:311-328 | Detaches as above. `uploadedParts` grows by exactly 1 iff `uploadBatchFiles` succeeded on the detached files and index. |
| `Handler.UploadBatchFiles` | handler/DownloadStickerSetQuery.go:330-378 | Succeeds iff the batch folder is created, the list is non-empty, the files that could be stat'ed and moved (or copied) add up to more than 0 bytes, and the archive named by the index is both compressed and sent. |
| `Handler.MovedBytesOfIntactBatch` | handler/DownloadStickerSetQuery.go:340-355 | When every file of a batch is still there with its registered size and can be moved or copied, the bytes moved equal the batch's registered size. |
| `Handler.BatchNamesDistinct` | handler/DownloadStickerSetQuery.go:332-363 | Different batch indices give different batch folders and different archives. No batch folder is an archive name. No converted sticker's path is either. |
| `Format.ParseDecimalOfDecimal` | handler/DownloadStickerSetQuery.go:332 | The `%d` rendering of a batch index reads back as that index. |
| `Handler.OutputExtension` | handler/DownloadStickerSetQuery.go:239-242 | The output extension is `png` iff the downloaded extension is `webp`, and `gif` otherwise. |
| `Handler.PngOutputIsTrimmed` | handler/DownloadStickerSetQuery.go:239-250 | The converter's output path ends in `.png` exactly when its input extension is `webp`, which is the case whose output gets trimmed. |
| `Handler.ConvertTaskFor` | handler/DownloadStickerSetQuery.go:239-254 | The conversion reads the downloaded temporary file with its own extension. It writes the output path ending in the chosen output extension. It gets a JSON preserve path exactly when the download is TGS and TGS support is on. |
| `Handler.DownloadTask.constructor` | handler/DownloadStickerSetQuery.go:105-111 | A new task has zero finished and zero failed items, the given total and folder, and a fresh empty batch manager. |
| `Handler.BatchManager.Offer` | handler/DownloadStickerSetQuery.go:272-279 | The worker's retry loop ends with the file in the open batch, after at most one flush. It flushes iff the file does not fit the old batch. After a flush the open batch holds only the new file, the index has advanced by 1, and the flushed index is the old one. `uploaded` is true only after a flush whose upload succeeded. `uploadedParts` grows by exactly 1 when it is. |
| `Handler.BatchManager.Register` | handler/DownloadStickerSetQuery.go:270-281 | One registration advances the manager by exactly one step of the greedy policy, so the manager always equals `Pack` of everything registered. A flushed batch is the old open batch, and its index equals the number of earlier flushes, so the indices run 0, 1, 2, ... with no gaps. After a flush, `uploaded` holds iff the old batch's paths were uploaded under that index. Without a flush nothing is uploaded. `uploadedParts` grows by exactly 1 iff `uploaded`. Hence `uploadedParts` moves in step with `Uploads` of the flushed batches. |
| `Handler.DownloadTask.ProcessItem` | handler/DownloadStickerSetQuery.go:202-283 | `finished + failed` grows by exactly 1. `failed` grows iff the cache copy, the file lookup, the download, the TGS guard or the conversion failed. Otherwise the converted file is registered, when it can be stat'ed. `uploaded` holds iff the item's registration flushed exactly one new batch and that batch was uploaded under the index equal to the number of earlier flushes. `uploadedParts` grows by exactly 1 iff `uploaded`, so it keeps counting the flushed batches whose upload succeeded (`Uploads`). |
| `Handler.DownloadTask.TakeNext` | handler/DownloadStickerSetQuery.go:195-283 | One turn of the worker's loop. Processing the next item of the queue extends the failure count and the registered artifacts by exactly that item's share. `uploadedParts` grows by exactly the successful uploads among the batches it flushed. |
| `Handler.DownloadTask.Drain` | handler/DownloadStickerSetQuery.go:146-158 | After the items are taken one after another, `failed` has grown by the number of failing items, and `finished` by the rest. The manager's registered artifacts have grown by the artifacts of the non-failing items that could be stat'ed, in queue order, so the manager is `Pack` of them. `uploadedParts` has grown by exactly the number of batches flushed during the run whose upload succeeded. The supervisor's test `finished + failed == total` holds exactly when every item of the run has been taken. |
| `Handler.DownloadTask.FinishRun` | handler/DownloadStickerSetQuery.go:164-189 | After a timeout nothing changes. Otherwise the rest is detached without advancing the index and uploaded only when non-empty. The uploaded count grows by 1 iff that upload succeeded, and the reported count is that total. |
| `Convert.Run` | utils/convertTask.go:39-85 | TGS input with TGS support off is refused before anything is run, and only then. Other input gets `-y`, then `-vcodec libvpx-vp9` for WebM only, then `-i input -vf filter output`. The filter is the fps cap, with the palette filter appended only for WebM whose probe reports alpha. WebP output is trimmed afterwards. |
| `Convert.DetectWebmAlpha` | utils/convertTask.go:191-227 | Returns true when the frame could not be extracted or decoded. Otherwise it returns true iff some pixel on the stride-4 grid from the origin has alpha below 65535. |
| `Convert.OpaqueBox` | utils/convertTask.go:242-262 | Some pixel has alpha > 0 iff minX <= maxX, and likewise iff minY <= maxY. The box then holds every such pixel, and each of its four edges touches one. |
| `Convert.TightBoxIsSmallest` | utils/convertTask.go:243-262 | Any box holding every pixel with alpha > 0 contains the box found by the scan. |
| `Convert.SpansImageIsFullBox` | utils/convertTask.go:264-266 | The tight box equals the full image bounds iff pixels with alpha > 0 reach all four edges. |
| `Convert.Crop` | utils/convertTask.go:268-273 | The new image has width maxX-minX+1 and height maxY-minY+1. Source pixel (x, y) lands at (x-minX, y-minY). |
| `Convert.TrimTransparentEdges` | utils/convertTask.go:242-273 | Nothing is cropped iff no pixel has alpha > 0 or such pixels reach all four edges. Otherwise the result is a fresh image holding exactly the tight box. |
| `Convert.FfmpegFilename` | utils/convertTask.go:122-135 | Building the suffix step by step yields `FfmpegName`: `ffmpeg`, then `-GOOS-GOARCH` unless `simplify` is set, then `.exe` on Windows. |
| `Convert.RlottieFilename` | utils/convertTask.go:114-120 | The name is `lottie2gif`, with `.exe` appended iff GOOS is `windows`: it starts with `lottie2gif`, has length 14 on Windows and 10 elsewhere, and ends in `.exe` iff GOOS is `windows`. |
| `Convert.ExeSuffixOnlyOnWindows` | utils/convertTask.go:122-135 | The ffmpeg name ends in `.exe` iff GOOS is `windows`, for any architecture name without a dot, with or without `simplify`. |

## Left out

- Goroutines, the channel queue, `sync.WaitGroup`, the tickers, the progress reporter and the deadline loop are left out. The mutex-guarded `batchManager` methods and the atomic counter increments run as atomic steps, one item after another. Interleavings of several workers are not modelled. Examples are two workers both asked to flush, which can detach an empty batch and skip an index, and the unlocked reads of `uploadedParts` and the counters.
- `Handler.DownloadTask.FinishRun`: the timeout decision (wall-clock time against `ProcessTimeout`) is its `success` parameter. The 48-hour message-age check is left out because it depends on the clock.
- Telegram calls (listing the set, `BotGetFile`, `DownloadFile`, `SendFileByPath`, message edits, callbacks), the localized texts, the `db` cache lookup and store, `db.ConsumeLimit` and `statistics` are foreign calls. Their results are inputs in `Fetch` and `UploadEnv`. A failed cache store only logs, so it has no effect on the model.
- File-system effects (`Mkdir`, `Rename`, `CopyFile`, `Stat`, `RemoveAll`, zip compression) are oracle functions of `UploadEnv`. Their effect on later calls is not modelled, and neither is the removal of the folders and archives.
- `Handler.UploadBatchFiles`: the float MB figure in the upload log line is not modelled.
- The TGS path after the guard (`tgsDecode`, the rename to `.json`, copying to `PreserveJsonPath`, the rlottie command line built by splitting on spaces, the rename of the produced GIF) is external process and gzip work. `Convert.Run` returns it as the `Lottie` command with its paths. `TgsToJson` is not part of this model.
- Running ffmpeg or rlottie, PNG decoding and encoding are left out. `Convert.TrimTransparentEdges` works on alpha values only: the colour channels and the NRGBA conversion of `croppedImg.Set` are not modelled.
- `Convert.OpaqueBox`, `Convert.TrimTransparentEdges`: they require a non-empty image, because Go's PNG decoder rejects non-positive dimensions.
- `Convert.DetectWebmAlpha`: a decoded frame of width or height 0 is taken as decoded and reports no alpha. Go's PNG decoder never produces one; it fails instead, and then the probe reports alpha.
- `Batching.Artifact` sizes are unbounded naturals. The `int64` sums of `currentBatchSize` and the `int32` counters cannot overflow for real sticker sets, so wrap-around is not modelled.
- The `logWriter` type only logs, so it is not modelled.
