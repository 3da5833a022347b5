# img2thumb control logic in Dafny

img2thumb watches source folders for raw camera files and writes a JPEG
thumbnail of each one into a destination folder. This project models the
sequential core of that program and proves what it promises:

- **Orientation** — `RawImageLoader.get_image_rotate_from_tags`, which
  extends the Exif Orientation tag's value list in place (2 implies 4 and
  3, 5 implies 4 and 6, 7 implies 4 and 8) and then picks a PIL transpose
  by four ordered tests, the last match winning. The mapping is the
  program's own: code 2 ends up as a top-to-bottom flip, not the 180°
  rotation that the 3 it implies would give on its own, because 4 is
  tested after 3.
- **Paths** — the pathlib pieces the rules depend on: `name`, `suffix`
  (last dot, not leading, not trailing), `stem`, `/` joining, `str.lower`
  and `str.endswith`.
- **Utils** — the loader factory (`.jpg`/`.jpeg` to the JPEG loader,
  `.nef`/`.cr2`/`.arw` to the raw loader, anything else refused with
  `ValueError`), `processable_types`, `is_processable_img`,
  `get_processable_img` over a filesystem snapshot, and `is_thumb`.
- **TaskQueues** — the `queue.Queue` shared by producers and the worker:
  FIFO items plus Python's unfinished-task count, with `task_done` raising
  when called too often.
- **Stability** — what `wait_for_complete` decides from a sequence of size
  samples: it returns right after the first two consecutive equal sizes.
- **Pipeline** — `create_thumb`'s destination rule, the startup pass
  `init_img_proc` (a set difference by stem), the handler's
  `wait_for_complete` and `wait_and_process`, and the `worker` drain loop
  with its `None` poison value, its stop flag and the skipped `task_done`
  after a failed thumbnail.

Inputs the program reads from the outside world are parameters: the
filesystem is a map from paths to nodes, `os.path.getsize` answers are a
sequence of `SizeSample`s, whether `create_thumb` raises for a task is a
predicate `fails`, the moment `stop_flag` is set is `stopSetAt` (how many
loop-head checks read it clear), and `get_processable_raw` /
`is_processable_raw`, which main.py imports from utils but utils.py does
not define, are a function and a predicate passed in.

## Model

| member | source | states |
|---|---|---|
| Orientation.GetImageRotateFromTags | utils.py:46-65 | without an "Image Orientation" tag the result is None; otherwise the tag's value list is replaced in place by its expansion and the result is the priority choice over the expanded list |
| Orientation.Resolve | utils.py:57-64 | the result is None iff no code 3, 4, 6 or 8 is present, and a 180° rotation only comes from a 3 |
| Orientation.Expand | utils.py:51-56 | the original values stay a prefix of the expanded list, and a code is in it iff it was reported or is implied by 2 (4, 3), 5 (4, 6) or 7 (4, 8) |
| Orientation.OrientationFromReportedCodes | utils.py:51-64 | in terms of the reported codes: Rotate90 iff 8 or 7; Rotate270 iff not those and 6 or 5; flip iff none of those and 4 or 2; Rotate180 iff only 3 of the codes 2-8; None iff no code 2-8 |
| Orientation.OrientationIgnoresOrderAndRepeats | utils.py:51-64 | two value lists with the same codes present give the same transpose, whatever their order and repetitions |
| Orientation.SingleCodeOutcomes | utils.py:51-64 | single codes 1-8 resolve to None, flip, Rotate180, flip, Rotate270, Rotate270, Rotate90, Rotate90 |
| Orientation.TwoResolvesToFlipNotRotation | utils.py:51-60 | [2] expands to exactly [2, 4, 3], and 3's rotation is overwritten by 4's flip |
| Paths.LastIndexOf | utils.py:70 | the index of the last occurrence of the character, or -1, with no occurrence after it |
| Paths.LastIndexOfIs | utils.py:70 | any index with the LastIndexOf property is the LastIndexOf result |
| Paths.Name | main.py:24 | the final component holds no '/' |
| Paths.Suffix | utils.py:70 | a suffix is empty or a dot followed by at least one character and no further dot or '/' |
| Paths.Stem | main.py:58-62 | a stem holds no '/' and is empty only for an empty name |
| Paths.StemSuffixSplitName | main.py:24 | stem followed by suffix is the whole name |
| Paths.Lower | utils.py:70 | same length, no upper-case letter left, every other character unchanged |
| Paths.LowerIdempotent | utils.py:70 | lowering twice is lowering once |
| Paths.LowerOfLowercase | utils.py:94 | lowering a string with no upper-case letter leaves it unchanged |
| Paths.Join | main.py:24 | `dir / name` ends with `name` |
| Paths.LastIndexOfAppend | main.py:24 | appending a tail without the character does not move its last occurrence |
| Paths.NameOfJoin | main.py:24 | the name of `dir / name` is `name` |
| Paths.DotOfExtended | utils.py:70 | the suffix dot of `base + ext` is the first character of `ext` |
| Paths.SplitExtended | utils.py:70 | a name `base + ext` has a suffix dot that splits it into exactly `base` and `ext` |
| Paths.StemOfExtended | main.py:24 | `dir / (base + ext)` has name `base + ext`, stem `base` and suffix `ext`, dots inside `base` included |
| Utils.LoaderFor | utils.py:71-76 | a loader is handed out only for a processable extension; otherwise the error is ValueError "Unsupported file extension: " followed by the extension |
| Utils.GetImageLoader | utils.py:68-76 | a path that gets a loader has a non-empty suffix whose lower-cased form is a processable type; a refused path fails with ValueError naming its lower-cased suffix |
| Utils.LoaderByExtension | utils.py:71-76 | JPEG loader iff .jpg or .jpeg; raw loader iff .nef, .cr2 or .arw; among processable types exactly .png and .webp are refused |
| Utils.JpgIsProcessable | utils.py:91-95 | a ".jpg" suffix is processable and gets the JPEG loader |
| Utils.UppercaseExtensionIsRaw | utils.py:93-95 | a ".NEF" suffix is lowered to ".nef": processable if it exists, and given the raw loader |
| Utils.IsProcessableImg | utils.py:93-95 | a processable image exists and has a suffix of at least four characters |
| Utils.LoaderServesProcessableImages | utils.py:67-95 | an existing file the factory serves is processable; a processable file is refused by the factory iff its extension is .png or .webp |
| Utils.ProcessableEntries | utils.py:101-105 | the filtered listing is no longer than the listing |
| Utils.ProcessableEntriesMembers | utils.py:101-105 | an entry is kept iff it is in the listing, is a file and is a processable image |
| Utils.ProcessableEntriesAppend | utils.py:102-104 | filtering keeps listing order: the filter of a concatenation is the concatenation of the filters |
| Utils.GetProcessableImg | utils.py:97-105 | ValueError "Not path" when the path is not a directory; otherwise exactly the filtered listing |
| Utils.IsThumb | utils.py:107-108 | a path `is_thumb` accepts has a final component ending in ".thumb.jpg" and the suffix ".jpg" |
| Utils.NameKeepsTail | utils.py:108 | a path ending in a tail without '/' has a name ending in that tail |
| Utils.ThumbNameDot | utils.py:108 | in a name ending in ".thumb.jpg" the suffix dot is the one before "jpg" |
| Utils.ThumbNameSuffix | utils.py:108 | a name ending in ".thumb.jpg" has suffix ".jpg" |
| Utils.ThumbIsProcessableJpeg | utils.py:107-108 | whatever `is_thumb` accepts has suffix ".jpg", is of a processable type and gets the JPEG loader |
| Utils.ThumbTestIsCaseSensitive | utils.py:107-108 | "x.thumb.jpg" is a thumb and "x.THUMB.JPG" is not |
| TaskQueues.TaskQueue.Get | main.py:80-82 | an empty queue yields nothing and changes nothing; otherwise the head is returned and removed |
| TaskQueues.TaskQueue.Put | main.py:65-69 | the item is appended and one more task is unfinished |
| TaskQueues.TaskQueue.TaskDone | main.py:84-90 | one unfinished task fewer, or ValueError when none is unfinished |
| Stability.Poll | main.py:48-53 | polling from sample i ends with the poll count between i and the number of samples (all of them when unsettled), one sleep per poll except after a final completing or failing poll, and completion at least one poll after i, two when no size was read before |
| Stability.Wait | main.py:46-53 | the whole wait reads at most the samples given, sleeps once less than it reads unless it ends unsettled, and completes only after at least two reads |
| Stability.PollCharacterised | main.py:47-53 | polling ends at the first agreeing pair, at the first vanished file, or unsettled when samples run out, with one sleep after every non-final poll |
| Stability.WaitCompleteMeansFirstStablePair | main.py:47-53 | a completed wait read at least two sizes, slept once between consecutive reads, and stopped at the first agreeing pair |
| Stability.WaitCompletesAtFirstStablePair | main.py:47-53 | conversely, the first agreeing pair after readable sizes is where the wait completes |
| Stability.WaitWithoutAgreementNeverCompletes | main.py:48-53 | sizes that never repeat keep the wait polling: it neither completes nor fails |
| Stability.WaitExamples | main.py:47-53 | [100, 100] takes 2 polls and 1 sleep; [100, 250, 250] takes 3 and 2; a vanished file fails at the poll that reads it |
| Pipeline.ThumbPathKeepsStem | main.py:24 | for `ThumbPath`, the destination `create_thumb` writes: the thumbnail is a ".jpg" with the source's stem in `to`, and two sources with the same stem share one destination, so the second overwrites the first |
| Pipeline.WrittenThumbIsReconciled | main.py:58-62 | a source whose thumbnail is listed in `to` is not queued again at startup |
| Pipeline.MissingThumbsSplitsSources | main.py:61-63 | the pass queues sources only, and every source it leaves out has its stem among the done stems |
| Pipeline.MissingThumbsShrinks | main.py:61-63 | with nothing in the destination every source is queued, and more done stems never queue more |
| Pipeline.StemsOfOne | main.py:58 | one image contributes exactly its stem |
| Pipeline.MissingOfThree | main.py:61-63 | of three sources, the one whose stem is done is dropped and the others kept |
| Pipeline.ReconcileComparesStems | main.py:57-63 | with sources a.nef, b.nef, c.jpg and a.png in `to`, exactly b.nef and c.jpg are queued: extensions are ignored |
| Pipeline.JobsForAppend | main.py:65-69 | queueing two lists of sources one after the other queues the tasks of their concatenation |
| Pipeline.JobsForSnoc | main.py:65-69 | queueing one more path appends its task |
| Pipeline.InitImgProc | main.py:55-69 | ValueError "Not path" and nothing queued when `to` is not a directory; otherwise tasks for distinct paths are appended, all to `to`, and a path is queued iff it is a source whose stem is not among the stems of `to`'s processable images |
| Pipeline.ImgCreateHandler.WaitForComplete | main.py:46-53 | the loop's result is the wait specification over the same samples |
| Pipeline.ImgCreateHandler.WaitAndProcess | main.py:38-44 | after the wait completes, one task to the handler's own `to` is queued iff the file is a processable raw; otherwise the queue is unchanged |
| Pipeline.FirstPoison | main.py:84-86 | the first `None` in the queue, with only tasks ahead of it |
| Pipeline.Taken | main.py:78-86 | a run takes no more items than the queue holds or than the stop flag allows |
| Pipeline.JobsBeforePoison | main.py:80-89 | the tasks ahead of the first `None` are attempted in queue order |
| Pipeline.PoisonEndsTheRun | main.py:84-86 | a run that reaches `None` takes it and nothing after it, having attempted exactly the tasks ahead of it |
| Pipeline.SucceededFailedPartition | main.py:88-93 | every attempted task either succeeds or fails |
| Pipeline.BacklogGrowsByFailures | main.py:88-93 | the unfinished count exceeds the queue length by one more for each failed task |
| Pipeline.SucceededSnoc | main.py:88-90 | one more task adds to the successes exactly when `create_thumb` returns for it |
| Pipeline.ThumbPathsAppend | main.py:89 | the thumbnails of two task lists, one after the other, are each list's thumbnails in order |
| Pipeline.AttemptOne | main.py:88-90 | one more attempt adds its own thumbnail to those written exactly when `create_thumb` returns for it |
| Pipeline.TakeOneJob | main.py:80-86 | taking one more item ahead of `None` extends the attempted tasks by its task |
| Pipeline.Worker | main.py:77-93 | the run exits on `None` iff it is reached before the stop flag; items are taken from the front; the tasks ahead are attempted in order; a thumbnail is written for each success; `task_done` is called once per success and once for `None`, so the backlog grows by the failures |

## Left out

- The watchdog `Observer`, `init_observer` and the thread `on_created` starts: an external event source and fire-and-forget threads.
- `signal_handler`, the thread joins and the idle loop of `main`, and the YAML config read at import: process control and I/O.
- The `time.sleep` durations: only the number of sleeps is modelled.
- Image decoding and writing through PIL, rawpy and exifread (`load_image`, `open_raw_image_thumb`, the file read and `transpose` in `open_nef_thumb`, `load_thumb`, `img_resize_by_max`, `img.save`): foreign libraries whose behaviour is not visible.
- Concurrency: the worker and the producers are modelled one at a time, so a task put while the worker runs is not captured.
- Pipeline.Worker: the stop flag is an input count of loop-head checks that read it clear, not a second thread.
- Pipeline.ImgCreateHandler.WaitForComplete: the real loop has no bound; a finite sample sequence without an agreeing pair ends as `Unsettled`, meaning the source would still be polling.
- Pipeline.InitImgProc: the iteration order of Python's set is not modelled; the loop takes its elements in an arbitrary order, and the contract fixes which paths are queued, not their order.
- Pipeline.Worker: whether `create_thumb` raises is a function of the task alone, so two attempts of the same task (the same path and destination queued twice) share one outcome; in the source a second attempt may succeed where the first failed.
- Pipeline.Worker: `create_thumb` is modelled by the destination it writes and by whether it raises, not by the image it writes.
- Paths.Lower: only ASCII letters are lowered; Python lowers all of Unicode.
- Paths.Join: paths are plain strings; pathlib's collapsing of repeated '/' and of "." components is not modelled.
- `get_processable_raw` and `is_processable_raw`: not defined in utils.py; they are parameters.
