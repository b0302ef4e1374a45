/**
 * The task of tasks.py performed step by step against one browser session.
 * The session is a Robot whose trace grows by one Action per call into the
 * browser, the document and image libraries or the archiver; the site's
 * answers come from the OrderScript of each order. Each method is proved to
 * append exactly the trace that the function of the same step in Orders gives.
 */
module Robot {
  import opened Maybe
  import opened Selectors
  import opened Artifacts
  import opened Snapshot
  import opened Actions
  import opened Orders

  class Robot {
    /** Everything the task has done so far, oldest first. */
    var trace: seq<Action>

    constructor ()
      ensures trace == []
    {
      trace := [];
    }

    method OpenRobotOrderWebsite()
      modifies this
      ensures trace == old(trace) + [Goto(OrderUrl)]
    {
      trace := trace + [Goto(OrderUrl)];
    }

    method CloseAnnoyingModal()
      modifies this
      ensures trace == old(trace) + [Click(ModalOk)]
    {
      trace := trace + [Click(ModalOk)];
    }

    method DownloadExcelFile()
      modifies this
      ensures trace == old(trace) + [Download(OrdersCsvUrl)]
    {
      trace := trace + [Download(OrdersCsvUrl)];
    }

    /** Renders the receipt markup to the order's document and returns its path. */
    method StoreReceiptAsPdf(orderNumber: string, receiptHtml: string) returns (path: string)
      modifies this
      ensures path == PdfPath(orderNumber)
      ensures trace == old(trace) + [HtmlToPdf(receiptHtml, path)]
    {
      path := PdfPath(orderNumber);
      trace := trace + [HtmlToPdf(receiptHtml, path)];
    }

    /** Captures the preview to the order's image and resizes it; fails as the source does. */
    method ScreenshotRobot(orderNumber: string, preview: Option<Size>) returns (shot: Result<string, Failure>)
      modifies this
      ensures trace == old(trace) + SnapshotOutcome(orderNumber, preview).actions
      ensures shot.Ok? <==> SnapshotOutcome(orderNumber, preview).status == Done
      ensures shot.Ok? ==> shot.value == PngPath(orderNumber)
      ensures shot.Err? ==> SnapshotOutcome(orderNumber, preview).status == Fatal(shot.error)
    {
      trace := trace + [Query(PreviewImage)];
      var path := PngPath(orderNumber);
      match preview {
        case None =>
          return Err(PreviewNotFound);
        case Some(captured) =>
          trace := trace + [ElementScreenshot(PreviewImage, path, captured)];
          var target := ResizeTarget(captured);
          if target.None? {
            return Err(ZeroWidthSnapshot);
          }
          if target.value.height == 0 {
            return Err(ZeroHeightTarget);
          }
          trace := trace + [ResizeImage(path, target.value)];
          return Ok(path);
      }
    }

    /** Appends the snapshot to the document at the order's receipt path. */
    method EmbedScreenshotToReceipt(screenshot: string, orderNumber: string)
      modifies this
      ensures trace == old(trace) + [AddFilesToPdf([screenshot], PdfPath(orderNumber))]
    {
      trace := trace + [AddFilesToPdf([screenshot], PdfPath(orderNumber))];
    }

    /**
     * The success branch of the retry loop: store the receipt, snapshot the
     * robot, embed the snapshot, ask for another order and dismiss the modal.
     */
    method ReceiveOrder(order: Order, script: OrderScript) returns (status: Status)
      modifies this
      ensures trace == old(trace) + ReceiptOutcome(order, script).actions
      ensures status == ReceiptOutcome(order, script).status
    {
      var pdf := StoreReceiptAsPdf(order.number, script.receiptHtml);
      var shot := ScreenshotRobot(order.number, script.preview);
      if shot.Err? {
        return Fatal(shot.error);
      }
      EmbedScreenshotToReceipt(shot.value, order.number);
      trace := trace + [Click(OrderAnother)];
      CloseAnnoyingModal();
      return Done;
    }

    /**
     * Enters the form once, then submits until the success marker appears;
     * on success builds the receipt and leaves the loop. The loop runs over
     * the scripted probe outcomes and reports StillRetrying when they run out.
     */
    method FillTheForm(order: Order, script: OrderScript) returns (status: Status)
      modifies this
      ensures trace == old(trace) + FormOutcome(order, script).actions
      ensures status == FormOutcome(order, script).status
    {
      trace := trace + [SelectOption(HeadSelect, HeadLabel(order.head))];
      trace := trace + [Click(BodySelector(order.body))];
      trace := trace + [Fill(LegsInput, order.legs)];
      trace := trace + [Fill(AddressInput, order.address)];
      assert trace == old(trace) + FormEntry(order);
      var probes := script.probes;
      var i := 0;
      while i < |probes|
        invariant 0 <= i <= |probes|
        invariant old(trace) + FormOutcome(order, script).actions
               == trace + RetryOutcome(order, script, probes[i..]).actions
        invariant FormOutcome(order, script).status == RetryOutcome(order, script, probes[i..]).status
        decreases |probes| - i
      {
        ghost var before := trace;
        ghost var rest := RetryOutcome(order, script, probes[i..]);
        trace := trace + [Click(SubmitButton)];
        trace := trace + [Query(OrderAnother)];
        assert trace == before + Attempt;
        if probes[i] {
          ghost var receipt := ReceiptOutcome(order, script);
          assert rest == Prepend(Attempt, receipt);
          AppendAssoc(before, Attempt, receipt.actions);
          status := ReceiveOrder(order, script);
          return;
        }
        assert probes[i..][1..] == probes[i + 1..];
        ghost var next := RetryOutcome(order, script, probes[i + 1..]);
        assert rest == Prepend(Attempt, next);
        AppendAssoc(before, Attempt, next.actions);
        i := i + 1;
      }
      assert probes[i..] == [];
      return StillRetrying;
    }

    /** Fills the form for every row, in order; an uncaught error ends the loop. */
    method ProcessOrders(orders: seq<Order>, site: seq<OrderScript>) returns (status: Status)
      modifies this
      ensures trace == old(trace) + ProcessOutcome(orders, site).actions
      ensures status == ProcessOutcome(orders, site).status
    {
      ghost var done: seq<Action> := [];
      for i := 0 to |orders|
        invariant trace == old(trace) + done
        invariant ProcessOutcome(orders, site) == Prepend(done, ProcessFrom(orders, site, i))
      {
        ghost var first := FormOutcome(orders[i], ScriptAt(site, i));
        AppendAssoc(old(trace), done, first.actions);
        status := FillTheForm(orders[i], ScriptAt(site, i));
        if status != Done {
          return;
        }
        AppendAssoc(done, first.actions, ProcessFrom(orders, site, i + 1).actions);
        done := done + first.actions;
      }
      status := Done;
    }

    method ArchiveReceipts()
      modifies this
      ensures trace == old(trace) + [ArchiveStep]
    {
      trace := trace + [ArchiveStep];
    }

    /** The task entry: open, close the modal, download, process every row, archive. */
    method OrderRobotsFromRobotSpareBin(orders: seq<Order>, site: seq<OrderScript>) returns (status: Status)
      modifies this
      ensures trace == old(trace) + TaskOutcome(orders, site).actions
      ensures status == TaskOutcome(orders, site).status
    {
      OpenRobotOrderWebsite();
      CloseAnnoyingModal();
      DownloadExcelFile();
      assert trace == old(trace) + Opening;
      ghost var processed := ProcessOutcome(orders, site);
      AppendAssoc(old(trace), Opening, processed.actions);
      status := ProcessOrders(orders, site);
      if status == Done {
        AppendAssoc(old(trace), Opening + processed.actions, [ArchiveStep]);
        ArchiveReceipts();
      }
    }
  }
}
