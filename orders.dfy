/**
 * What tasks.py does, as functions of the order rows and of how the site
 * behaves: the trace of actions each step performs and how the step ends.
 * The Robot class performs these steps one by one and is proved to produce
 * exactly these traces; the properties are proved about these functions.
 */
module Orders {
  import opened Maybe
  import opened Selectors
  import opened Artifacts
  import opened Snapshot
  import opened Actions

  const OrderUrl: string := "https://robotsparebinindustries.com/#/robot-order"
  const OrdersCsvUrl: string := "https://robotsparebinindustries.com/orders.csv"
  /** The button that dismisses the start-up modal, and the confirmation after an order. */
  const ModalOk: string := "text=OK"
  const HeadSelect: string := "#head"
  const LegsInput: string := "input[placeholder='Enter the part number for the legs']"
  const AddressInput: string := "#address"
  const SubmitButton: string := "css=#order"
  /** The success marker: present only once the site has accepted the order. */
  const OrderAnother: string := "css=#order-another"
  const PreviewImage: string := "#robot-preview-image"

  /** One row of the order table. The fields are the table's text cells. */
  datatype Order = Order(number: string, head: string, body: string, legs: string, address: string)

  /**
   * How the site answers while one order is processed: the outcome of the
   * success probe after each submit, in order; the receipt markup; and the
   * size of the preview image, or None when the preview element is absent.
   */
  datatype OrderScript = OrderScript(probes: seq<bool>, receiptHtml: string, preview: Option<Size>)

  /** The errors the source does not catch, which end the whole run. */
  datatype Failure =
    | PreviewNotFound     // query_selector gave None and `element.screenshot` fails on it
    | ZeroWidthSnapshot   // `500 / image.width` divides by zero
    | ZeroHeightTarget    // the truncated height is 0, which `image.resize` rejects

  /**
   * How a step ends: normally, by an uncaught error, or (for the retry loop)
   * still retrying when the script has no further probe outcomes.
   */
  datatype Status = Done | Fatal(failure: Failure) | StillRetrying

  datatype Outcome = Outcome(actions: seq<Action>, status: Status)

  function Prepend(prefix: seq<Action>, o: Outcome): Outcome
  {
    Outcome(prefix + o.actions, o.status)
  }

  /** The four form entries of `fill_the_form`, made once before the first submit. */
  function FormEntry(o: Order): seq<Action>
  {
    [ SelectOption(HeadSelect, HeadLabel(o.head)),
      Click(BodySelector(o.body)),
      Fill(LegsInput, o.legs),
      Fill(AddressInput, o.address) ]
  }

  /** One turn of the retry loop: click submit, then probe for the success marker. */
  const Attempt: seq<Action> := [Click(SubmitButton), Query(OrderAnother)]

  /** `screenshot_robot`: locate the preview, capture it, resize it in place. */
  function SnapshotOutcome(orderNumber: string, preview: Option<Size>): Outcome
  {
    match preview
    case None => Outcome([Query(PreviewImage)], Fatal(PreviewNotFound))
    case Some(captured) =>
      var shot := [Query(PreviewImage), ElementScreenshot(PreviewImage, PngPath(orderNumber), captured)];
      match ResizeTarget(captured)
      case None => Outcome(shot, Fatal(ZeroWidthSnapshot))
      case Some(target) =>
        if target.height == 0 then Outcome(shot, Fatal(ZeroHeightTarget))
        else Outcome(shot + [ResizeImage(PngPath(orderNumber), target)], Done)
  }

  /**
   * The success branch of the loop: store the receipt, take the snapshot,
   * embed it into the stored receipt, ask for another order, dismiss the modal.
   */
  function ReceiptOutcome(o: Order, sc: OrderScript): Outcome
  {
    var stored := [HtmlToPdf(sc.receiptHtml, PdfPath(o.number))];
    var snap := SnapshotOutcome(o.number, sc.preview);
    if snap.status != Done then Prepend(stored, snap)
    else Outcome(stored + snap.actions
                 + [AddFilesToPdf([PngPath(o.number)], PdfPath(o.number)), Click(OrderAnother), Click(ModalOk)],
                 Done)
  }

  /** The `while True` loop, run against the probe outcomes that remain. */
  function RetryOutcome(o: Order, sc: OrderScript, probes: seq<bool>): Outcome
    decreases |probes|
  {
    if probes == [] then Outcome([], StillRetrying)
    else if probes[0] then Prepend(Attempt, ReceiptOutcome(o, sc))
    else Prepend(Attempt, RetryOutcome(o, sc, probes[1..]))
  }

  /** `fill_the_form`: the form entries, then the retry loop. */
  function FormOutcome(o: Order, sc: OrderScript): Outcome
  {
    Prepend(FormEntry(o), RetryOutcome(o, sc, sc.probes))
  }

  /** The site's answers for the `i`th order; with none given, the probe never succeeds. */
  function ScriptAt(site: seq<OrderScript>, i: nat): OrderScript
  {
    if i < |site| then site[i] else OrderScript([], "", None)
  }

  /** The loop of `process_orders` from row `i` on: stops at the first row that does not end normally. */
  function ProcessFrom(orders: seq<Order>, site: seq<OrderScript>, i: nat): Outcome
    requires i <= |orders|
    decreases |orders| - i
  {
    if i == |orders| then Outcome([], Done)
    else
      var first := FormOutcome(orders[i], ScriptAt(site, i));
      if first.status != Done then first
      else Prepend(first.actions, ProcessFrom(orders, site, i + 1))
  }

  function ProcessOutcome(orders: seq<Order>, site: seq<OrderScript>): Outcome
  {
    ProcessFrom(orders, site, 0)
  }

  /** The steps before the rows are processed: open the page, close the modal, download the table. */
  const Opening: seq<Action> := [Goto(OrderUrl), Click(ModalOk), Download(OrdersCsvUrl)]

  /** `archive_receipts`. */
  const ArchiveStep: Action := ArchiveFolder(OutputDir, ArchiveName)

  /** The task `order_robots_from_robot_spare_bin`: archiving runs only if every row ended normally. */
  function TaskOutcome(orders: seq<Order>, site: seq<OrderScript>): Outcome
  {
    var processed := ProcessOutcome(orders, site);
    if processed.status == Done then Outcome(Opening + processed.actions + [ArchiveStep], Done)
    else Prepend(Opening, processed)
  }
}
