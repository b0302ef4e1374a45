# Robot order task: a verified model

The task in `tasks.py` orders robots from the RobotSpareBin Industries web
shop. It opens the order page, closes the start-up modal and downloads the
order table. Then, for each row, it fills the order form and submits until
the site confirms the order. On confirmation it stores the confirmation
receipt as a PDF, captures and resizes a preview image of the robot, appends
that image to the receipt, and asks for the next order. At the end it zips
the `output/` folder into `merged.zip`.

This project models that task in Dafny, with the browser replaced by an
abstract driver:

- Every call that changes the page, a file or the archive, and every
  element query, is an `Action`, appended to a trace (`Actions`). Calls
  that only read an answer leave no `Action`: the receipt markup
  (`inner_html`) and the captured image's size (`Image.open`) come from the
  `OrderScript`. `browser.configure` and the table reading leave none
  either.
- The site's behaviour for one order is an `OrderScript`. It gives the
  outcome of the success probe after each submit, the receipt markup, and
  the preview element's size, or its absence (`Orders`).
- For each step of the task, `Orders` has a function giving the trace the
  step produces and how the step ends: normally, by an uncaught error, or
  still retrying.
- `Robot.Robot` is the browser session as a class with a growing `trace`.
  Its methods mirror the Python functions one for one, plus `ReceiveOrder`
  for the success branch written inline in the retry loop of
  `fill_the_form`. Each method is proved to append exactly the trace its
  function gives.
- `Files` replays a trace over a file-system map. This is what the claims
  about receipt contents and the archive are stated against.
- `Selectors`, `Artifacts` and `Snapshot` model the pure helpers: the head
  and body selectors, the artifact paths and the resize arithmetic.
- `OrderProperties` and `TaskProperties` prove the promises of the task
  about these functions.

The unbounded `while True` retry loop runs over the finite list of probe
outcomes. If that list runs out before a success, the model ends in
`StillRetrying`, where the real program would keep looping.

The code truncates the resized height, with `int(h * (500 / w))`, so the
model truncates too. A capture much wider than tall, with `h * 500 < w`,
therefore gets a target height of 0. The image library refuses to resize to
a zero dimension, so the model ends that order with the fatal error
`ZeroHeightTarget`.

## Model

| member | source | states |
|---|---|---|
| `Selectors.HeadLabel` | tasks.py:67-76 | the label is non-empty exactly for the six known codes, and is one of the table's labels or "" |
| `Selectors.HeadLabelTable` | tasks.py:69-76 | codes "1" to "6" give exactly their listed labels, and any other code gives "" without failing |
| `Selectors.HeadLabelInjective` | tasks.py:69-76 | each label belongs to exactly one known code |
| `Selectors.BodySelector` | tasks.py:78-80 | the selector is "#id-body-" followed by the body id, with no table |
| `Selectors.BodySelectorRoundTrip` | tasks.py:80 | the body id can be read back from its selector |
| `Selectors.BodySelectorInjective` | tasks.py:80 | distinct body ids give distinct selectors |
| `Artifacts.ArtifactPath` | tasks.py:112 | an artifact path is "output/" + order number + extension, so it lies in the archived folder |
| `Artifacts.ArtifactPathRoundTrip` | tasks.py:112 | the order number can be read back from its artifact path |
| `Artifacts.ArtifactPathInjective` | tasks.py:123 | distinct order numbers give distinct PDF paths and distinct PNG paths |
| `Artifacts.PdfNeverPng` | tasks.py:142 | no receipt path is a snapshot path, for any two order numbers |
| `Artifacts.ArtifactsInOutputDir` | tasks.py:152 | both artifacts of an order are inside `output/`, and neither is `merged.zip` |
| `Snapshot.ResizeTarget` | tasks.py:128-129 | width 500; height is the truncated h*500/w, bracketed by multiples of w; a zero width is an error |
| `Snapshot.ResizeHeightUnique` | tasks.py:128-129 | the truncated height is the only height that bracket allows |
| `Snapshot.ResizeAtTargetWidth` | tasks.py:128-129 | an image already 500 wide keeps its height |
| `Snapshot.ResizeMonotone` | tasks.py:128-129 | for the same width, a taller capture never gives a shorter target |
| `Snapshot.ResizableTarget` | tasks.py:128-129 | a capture can be resized exactly when its width is non-zero and its truncated target height is at least 1 |
| `Snapshot.FlatCaptureTruncatesToZero` | tasks.py:128-129 | a 1000×1 capture truncates to a 500×0 target, which cannot be resized |
| `Files.Apply` | tasks.py:140-144 | an action changes at most the one file it writes, and never removes a file |
| `Files.EmbedAppends` | tasks.py:140-144 | embedding keeps all earlier receipt parts and appends the image; embedding twice yields the image twice, losing nothing |
| `Files.ReplayUntouched` | tasks.py:147-152 | a path that no action of a trace writes keeps its file, or stays absent |
| `Robot.Robot.OpenRobotOrderWebsite` | tasks.py:29-31 | appends the navigation to the order page |
| `Robot.Robot.CloseAnnoyingModal` | tasks.py:34-36 | appends the click on "OK" |
| `Robot.Robot.DownloadExcelFile` | tasks.py:39-43 | appends the download of the order table |
| `Robot.Robot.StoreReceiptAsPdf` | tasks.py:106-114 | renders the receipt markup to `output/{n}.pdf` and returns that path |
| `Robot.Robot.ScreenshotRobot` | tasks.py:117-132 | probes for the preview, captures it to `output/{n}.png` and resizes it, returning that path; fails when the element is absent, when the width is zero, or when the target height truncates to zero |
| `Robot.Robot.EmbedScreenshotToReceipt` | tasks.py:135-144 | appends the returned snapshot to `output/{n}.pdf` |
| `Robot.Robot.ReceiveOrder` | tasks.py:94-101 | the success branch: store, snapshot, embed, "order another", close the modal; stops at the first error |
| `Robot.Robot.FillTheForm` | tasks.py:58-103 | enters the form once, then loops submit-and-probe until a hit, then takes the success branch; trace and ending as `Orders.FormOutcome` |
| `Robot.Robot.ProcessOrders` | tasks.py:46-55 | fills the form for each row in order and stops at the first row that does not end normally |
| `Robot.Robot.ArchiveReceipts` | tasks.py:147-152 | appends the archiving of `output/` into `merged.zip` |
| `Robot.Robot.OrderRobotsFromRobotSpareBin` | tasks.py:12-26 | open, close the modal, download, process the rows, then archive only if every row ended normally |
| `OrderProperties.FirstHit` | tasks.py:91-93 | the index of the first successful probe: all earlier probes missed |
| `OrderProperties.ReceiptSteps` | tasks.py:94-101 | the success branch starts with storing the receipt; it ends normally exactly when the preview exists and can be resized; otherwise it ends with the error for a missing preview, a zero width or a zero target height, each exactly in its case |
| `OrderProperties.ReceiptStepFacts` | tasks.py:94-101 | no receipt step submits, probes for the success marker, enters the form or writes another order's files |
| `OrderProperties.ReceiptWrites` | tasks.py:94-101 | the success branch writes only this order's artifacts and never enters the form |
| `OrderProperties.ReceiptQuiet` | tasks.py:94-101 | the success branch renders exactly one receipt, never submits or probes for the success marker, and always ends |
| `OrderProperties.RetryClosedForm` | tasks.py:91-103 | k misses then a hit give exactly k+1 submit-and-probe turns followed by the success branch |
| `OrderProperties.RetryExhausted` | tasks.py:91-103 | with no hit, the loop only submits and probes, once per outcome, and is still retrying |
| `OrderProperties.RetrySteps` | tasks.py:91-103 | for any outcomes, the loop never re-enters the form and writes only this order's artifacts |
| `OrderProperties.RetryEnds` | tasks.py:91-103 | a receipt is rendered exactly when some probe hits; the loop keeps retrying exactly when none does |
| `OrderProperties.FormAfterMisses` | tasks.py:83-103 | after k misses and a hit, the trace is the entries, k+1 turns, then the receipt steps, and the call ends as the receipt steps do |
| `OrderProperties.FormEnteredOnce` | tasks.py:83-92 | head, body, legs and address are entered first, in that order, and never again; the first submit follows them |
| `OrderProperties.RetryCounts` | tasks.py:91-103 | k misses then a hit give exactly k+1 submit clicks, k+1 probes and one rendered receipt |
| `OrderProperties.ReceiptAfterLastProbe` | tasks.py:93-103 | every receipt step comes after every probe, so none runs after a missed probe |
| `OrderProperties.ReceiptOnSuccess` | tasks.py:95-101 | with a usable preview: store, probe the preview, capture, resize to width 500, embed, "order another", close the modal |
| `OrderProperties.SuccessOrder` | tasks.py:91-101 | the whole trace of a form call that ends normally: entries, turns, then the receipt steps in source order, and nothing after |
| `OrderProperties.ReplayReceipt` | tasks.py:106-144 | after the success branch, the receipt holds the markup and then the resized image, and the image is at its target size |
| `OrderProperties.ReceiptFiles` | tasks.py:106-144 | the same, for the success branch of any order, from any prior files |
| `OrderProperties.FormReceiptFiles` | tasks.py:94-144 | a form call that ends normally leaves `output/{n}.pdf` holding the confirmation then the snapshot, and `output/{n}.png` 500 wide with a positive height |
| `OrderProperties.FormFacts` | tasks.py:58-103 | a form call writes only its own artifacts and renders at most its own one receipt |
| `OrderProperties.ProcessFacts` | tasks.py:54-55 | the rows end normally exactly when each row does; receipts come one per row in input order, all of them or a prefix; nothing is archived |
| `OrderProperties.ProcessWrites` | tasks.py:54-55 | processing writes only inside `output/` and never archives |
| `OrderProperties.ProcessPrefix` | tasks.py:54-55 | while the rows before m end normally, processing is their run followed by processing from row m |
| `OrderProperties.ProcessStopsAtFirstFailure` | tasks.py:54-55 | the first row that does not end normally decides how processing ends; processing is exactly the run of the earlier rows followed by that row's own trace, so no later row is attempted |
| `TaskProperties.TaskShape` | tasks.py:21-26 | open, close the modal, download come first; the run ends as the rows do; it archives exactly once, last, exactly when every row ended normally |
| `TaskProperties.ProcessLeavesArtifacts` | tasks.py:54-55 | after the rows, every row has its receipt and snapshot on disk |
| `TaskProperties.TaskBundle` | tasks.py:147-152 | a normal run leaves `merged.zip`, which holds every row's receipt and snapshot and only files from `output/` |
| `TaskProperties.TaskAbortLeavesNoBundle` | tasks.py:22-26 | a run that does not end normally never archives, and leaves no `merged.zip` if there was none |
| `TaskProperties.PreviewMissingAbortsRun` | tasks.py:122-124 | when the earlier rows ended normally, a missing preview after a successful submit aborts the run with that error, and no archive is written |
| `TaskProperties.TaskSingleOrder` | tasks.py:12-26 | one row, normal end: the receipt holds the confirmation then the 500-wide snapshot of positive height, and the archive holds both files |

## Left out

- Browser internals: navigation, clicking, selecting, filling and element queries are foreign calls. They are modelled only as trace events, and the site's answers come from the `OrderScript`.
- `Http.download` and `Tables.read_table_from_csv`: the rows are a given sequence of `Order` values with text fields. The downloaded `orders.csv` is not modelled as a file, and malformed rows are not modelled.
- PDF rendering, PDF appending, and PIL open/resize/save: foreign libraries. A document is modelled as the list of its parts and an image as its size. Of the library's own errors, only the rejection of a zero target height is modelled (`ZeroHeightTarget`).
- Zip archiving: the archive is the set of paths under `output/` at the moment of archiving. The file bytes are not modelled.
- `browser.configure(slowmo=50)`, `time.sleep(1)` and the `print` logging: timing and output side channels that leave no state.
- `Snapshot.ResizeTarget`: computes the height with exact division truncated toward zero. The source computes it in floating point, which in rare cases may differ by one.
- `Robot.Robot.FillTheForm`: does not model real non-termination. The retry loop runs over the finite probe outcomes and ends `StillRetrying` when they run out.
- The `None` element at tasks.py:122-124: modelled only as the fatal error `PreviewNotFound`, which aborts the run. The rest of the error is not modelled.
- Every other fatal error (a missing element while filling, an I/O failure): not modelled; the driver never raises them.
- Paths are compared as text and never normalised, and "under `output/`" is a prefix test on that text. Order numbers are taken to be plain file names without `/` or `.` segments, as the table's integer order numbers are. An order number such as `../7` would put its files outside `output/` in the real program, where the model still counts them inside. `7` and `./7` name one file but are two paths here.
- `str(order["Address"])`: the table's cells are already text, so the conversion is the identity.
