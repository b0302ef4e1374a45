/**
 * What tasks.py promises about one order and about the whole run, proved
 * about the functions of Orders (and so, through the postconditions of the
 * Robot methods, about what the task does step by step).
 */
module OrderProperties {
  import opened Maybe
  import opened Selectors
  import opened Artifacts
  import opened Snapshot
  import opened Actions
  import opened Files
  import opened Orders

  /** The actions that enter the form: the head selection, a body click, the two text fields. */
  predicate EntersForm(a: Action)
  {
    a.SelectOption? || a.Fill? || (a.Click? && BodyPrefix <= a.selector)
  }

  /** The actions of the receipt steps: render, capture, resize, embed. */
  predicate BuildsReceipt(a: Action)
  {
    a.HtmlToPdf? || a.ElementScreenshot? || a.ResizeImage? || a.AddFilesToPdf?
  }

  /** An action writes, if at all, only the two artifacts of order `o`, and never archives. */
  predicate WritesOwnArtifacts(o: Order, a: Action)
  {
    && (a.HtmlToPdf? ==> a.path == PdfPath(o.number))
    && ((a.ElementScreenshot? || a.ResizeImage?) ==> a.path == PngPath(o.number))
    && (a.AddFilesToPdf? ==> a.files == [PngPath(o.number)] && a.target == PdfPath(o.number))
    && !a.ArchiveFolder?
  }

  /** The documents rendered along a trace, in order. */
  function Receipts(t: seq<Action>): seq<string>
  {
    if t == [] then [] else (if t[0].HtmlToPdf? then [t[0].path] else []) + Receipts(t[1..])
  }

  lemma {:induction false} ReceiptsAppend(s: seq<Action>, t: seq<Action>)
    ensures Receipts(s + t) == Receipts(s) + Receipts(t)
  {
    if s == [] {
      assert s + t == t;
    } else {
      var first := if s[0].HtmlToPdf? then [s[0].path] else [];
      assert (s + t)[1..] == s[1..] + t;
      assert (s + t)[0] == s[0];
      ReceiptsAppend(s[1..], t);
      assert Receipts(s + t) == first + (Receipts(s[1..]) + Receipts(t));
      AppendAssoc(first, Receipts(s[1..]), Receipts(t));
    }
  }

  /** The receipt paths of the rows, in input order. */
  function PdfPaths(orders: seq<Order>): (paths: seq<string>)
    ensures |paths| == |orders|
    ensures forall j :: 0 <= j < |orders| ==> paths[j] == PdfPath(orders[j].number)
  {
    if orders == [] then [] else [PdfPath(orders[0].number)] + PdfPaths(orders[1..])
  }

  /** The index of the first successful probe. */
  function FirstHit(probes: seq<bool>): (k: nat)
    requires true in probes
    ensures k < |probes| && probes[k]
    ensures forall j :: 0 <= j < k ==> !probes[j]
  {
    if probes[0] then 0 else 1 + FirstHit(probes[1..])
  }

  /** None of the fixed selectors the task clicks is a body selector. */
  lemma FixedClicksAreNotBodies()
    ensures !(BodyPrefix <= SubmitButton) && !(BodyPrefix <= OrderAnother) && !(BodyPrefix <= ModalOk)
  {
    assert SubmitButton[0] == 'c' && OrderAnother[0] == 'c' && ModalOk[0] == 't' && BodyPrefix[0] == '#';
  }

  /** The form entries touch no file and are neither a submit nor a probe. */
  lemma FormEntryFacts(o: Order)
    ensures forall a :: a in FormEntry(o) ==> EntersForm(a) && Written(a) == None
    ensures Click(SubmitButton) !in FormEntry(o) && Query(OrderAnother) !in FormEntry(o)
    ensures Receipts(FormEntry(o)) == []
  {
    FixedClicksAreNotBodies();
    assert BodyPrefix <= BodySelector(o.body);
    ReceiptsNone(FormEntry(o));
  }

  /** The actions the receipt steps of order `o` can perform. */
  predicate ReceiptStep(o: Order, sc: OrderScript, a: Action)
  {
    || a == HtmlToPdf(sc.receiptHtml, PdfPath(o.number))
    || a == Query(PreviewImage)
    || (a.ElementScreenshot? && a.selector == PreviewImage && a.path == PngPath(o.number))
    || (a.ResizeImage? && a.path == PngPath(o.number))
    || a == AddFilesToPdf([PngPath(o.number)], PdfPath(o.number))
    || a == Click(OrderAnother)
    || a == Click(ModalOk)
  }

  /** No receipt step enters the form, submits, probes for success, or writes another order's files. */
  lemma ReceiptStepFacts(o: Order, sc: OrderScript, a: Action)
    requires ReceiptStep(o, sc, a)
    ensures !EntersForm(a) && WritesOwnArtifacts(o, a)
    ensures a != Click(SubmitButton) && a != Query(OrderAnother)
  {
    FixedClicksAreNotBodies();
    assert OrderAnother != SubmitButton by { assert |OrderAnother| != |SubmitButton|; }
    assert ModalOk != SubmitButton by { assert ModalOk[0] != SubmitButton[0]; }
    assert PreviewImage != OrderAnother by { assert PreviewImage[0] != OrderAnother[0]; }
  }

  /** The receipt steps in their three endings. */
  lemma ReceiptSteps(o: Order, sc: OrderScript)
    ensures var r := ReceiptOutcome(o, sc);
      && |r.actions| >= 2
      && r.actions[0] == HtmlToPdf(sc.receiptHtml, PdfPath(o.number))
      && (forall j :: 0 <= j < |r.actions| ==> ReceiptStep(o, sc, r.actions[j]))
      && (forall j :: 1 <= j < |r.actions| ==> !r.actions[j].HtmlToPdf?)
      && (r.status == Done <==> sc.preview.Some? && Resizable(sc.preview.value))
      && (r.status == Fatal(PreviewNotFound) <==> sc.preview.None?)
      && (r.status == Fatal(ZeroWidthSnapshot) <==> sc.preview.Some? && sc.preview.value.width == 0)
      && (r.status == Fatal(ZeroHeightTarget) <==>
            sc.preview.Some? && sc.preview.value.width > 0 && !Resizable(sc.preview.value))
  {
  }

  /** The receipt steps write only this order's artifacts and never enter the form. */
  lemma ReceiptWrites(o: Order, sc: OrderScript)
    ensures forall a :: a in ReceiptOutcome(o, sc).actions ==> !EntersForm(a) && WritesOwnArtifacts(o, a)
  {
    ReceiptSteps(o, sc);
    forall a | a in ReceiptOutcome(o, sc).actions ensures !EntersForm(a) && WritesOwnArtifacts(o, a) {
      ReceiptStepFacts(o, sc, a);
    }
  }

  /** The receipt steps neither submit nor probe, render one receipt, and always end. */
  lemma ReceiptQuiet(o: Order, sc: OrderScript)
    ensures var r := ReceiptOutcome(o, sc);
      && Click(SubmitButton) !in r.actions && Query(OrderAnother) !in r.actions
      && Receipts(r.actions) == [PdfPath(o.number)]
      && r.status != StillRetrying
  {
    var t := ReceiptOutcome(o, sc).actions;
    ReceiptSteps(o, sc);
    forall a | a in t ensures a != Click(SubmitButton) && a != Query(OrderAnother) {
      ReceiptStepFacts(o, sc, a);
    }
    assert t == [t[0]] + t[1..];
    ReceiptsAppend([t[0]], t[1..]);
    ReceiptsNone(t[1..]);
  }

  lemma {:induction false} ReceiptsNone(t: seq<Action>)
    requires forall j :: 0 <= j < |t| ==> !t[j].HtmlToPdf?
    ensures Receipts(t) == []
  {
    if t != [] {
      ReceiptsNone(t[1..]);
    }
  }

  /**
   * The submit/retry loop: if the probe misses on the first k attempts and
   * hits on attempt k+1, the loop performs k+1 submit-and-probe turns and
   * then the receipt steps, and nothing else.
   */
  lemma {:induction false} RetryClosedForm(o: Order, sc: OrderScript, probes: seq<bool>, k: nat)
    requires k < |probes| && probes[k]
    requires forall j :: 0 <= j < k ==> !probes[j]
    ensures RetryOutcome(o, sc, probes) == Prepend(Repeat(Attempt, k + 1), ReceiptOutcome(o, sc))
  {
    var r := ReceiptOutcome(o, sc);
    if k == 0 {
      assert Repeat(Attempt, 1) == Attempt;
    } else {
      assert !probes[0];
      assert forall j :: 0 <= j < k - 1 ==> !probes[1..][j] by {
        forall j | 0 <= j < k - 1 ensures !probes[1..][j] { assert probes[1..][j] == probes[j + 1]; }
      }
      RetryClosedForm(o, sc, probes[1..], k - 1);
      AppendAssoc(Attempt, Repeat(Attempt, k), r.actions);
    }
  }

  /** With no successful probe, the loop only submits and probes, once per outcome, and is still retrying. */
  lemma {:induction false} RetryExhausted(o: Order, sc: OrderScript, probes: seq<bool>)
    requires true !in probes
    ensures RetryOutcome(o, sc, probes) == Outcome(Repeat(Attempt, |probes|), StillRetrying)
  {
    if probes != [] {
      assert probes[0] in probes;
      assert forall b :: b in probes[1..] ==> b in probes;
      RetryExhausted(o, sc, probes[1..]);
    }
  }

  /** A submit-and-probe turn neither enters the form nor touches a file. */
  lemma AttemptFacts(o: Order)
    ensures forall a :: a in Attempt ==> !EntersForm(a) && WritesOwnArtifacts(o, a) && !BuildsReceipt(a)
    ensures Receipts(Attempt) == []
  {
    FixedClicksAreNotBodies();
    ReceiptsNone(Attempt);
  }

  /** Whatever the probe outcomes, the loop never re-enters the form and writes only this order's artifacts. */
  lemma {:induction false} RetrySteps(o: Order, sc: OrderScript, probes: seq<bool>)
    ensures forall a :: a in RetryOutcome(o, sc, probes).actions ==> !EntersForm(a) && WritesOwnArtifacts(o, a)
    decreases |probes|
  {
    if probes != [] {
      AttemptFacts(o);
      var rest := if probes[0] then ReceiptOutcome(o, sc) else RetryOutcome(o, sc, probes[1..]);
      if probes[0] { ReceiptWrites(o, sc); } else { RetrySteps(o, sc, probes[1..]); }
      assert RetryOutcome(o, sc, probes).actions == Attempt + rest.actions;
    }
  }

  /**
   * The loop renders a receipt exactly when some probe succeeds, keeps
   * retrying exactly when none does, and otherwise ends as the receipt steps do.
   */
  lemma RetryEnds(o: Order, sc: OrderScript, probes: seq<bool>)
    ensures var r := RetryOutcome(o, sc, probes);
      && Receipts(r.actions) == (if true in probes then [PdfPath(o.number)] else [])
      && (r.status == StillRetrying <==> true !in probes)
      && (true in probes ==> r.status == ReceiptOutcome(o, sc).status)
  {
    RetryReceipts(o, sc, probes);
    RetryStatus(o, sc, probes);
  }

  lemma {:induction false} RetryReceipts(o: Order, sc: OrderScript, probes: seq<bool>)
    ensures Receipts(RetryOutcome(o, sc, probes).actions) == (if true in probes then [PdfPath(o.number)] else [])
    decreases |probes|
  {
    if probes != [] {
      var rest := if probes[0] then ReceiptOutcome(o, sc) else RetryOutcome(o, sc, probes[1..]);
      assert Receipts(RetryOutcome(o, sc, probes).actions) == Receipts(rest.actions) by {
        assert RetryOutcome(o, sc, probes).actions == Attempt + rest.actions;
        ReceiptsAppend(Attempt, rest.actions);
        ReceiptsNone(Attempt);
        assert [] + Receipts(rest.actions) == Receipts(rest.actions);
      }
      if probes[0] {
        ReceiptQuiet(o, sc);
      } else {
        RetryReceipts(o, sc, probes[1..]);
        assert true in probes <==> true in probes[1..] by {
          assert probes == [probes[0]] + probes[1..];
        }
      }
    }
  }

  lemma {:induction false} RetryStatus(o: Order, sc: OrderScript, probes: seq<bool>)
    ensures var r := RetryOutcome(o, sc, probes);
      && (r.status == StillRetrying <==> true !in probes)
      && (true in probes ==> r.status == ReceiptOutcome(o, sc).status)
    decreases |probes|
  {
    if probes != [] {
      if probes[0] {
        ReceiptQuiet(o, sc);
      } else {
        RetryStatus(o, sc, probes[1..]);
        assert probes == [probes[0]] + probes[1..];
      }
    }
  }

  /**
   * The form is entered once, before the first submit, in the order head,
   * body, legs, address; afterwards only submits, probes and receipt steps
   * follow, so a retry repeats the submit click alone.
   */
  lemma FormEnteredOnce(o: Order, sc: OrderScript)
    ensures var t := FormOutcome(o, sc).actions;
      && |t| >= 4 && t[..4] == FormEntry(o)
      && (forall i :: 4 <= i < |t| ==> !EntersForm(t[i]))
      && (|t| > 4 <==> sc.probes != [])
      && (sc.probes != [] ==> t[4] == Click(SubmitButton))
  {
    var t := FormOutcome(o, sc).actions;
    var rest := RetryOutcome(o, sc, sc.probes).actions;
    RetrySteps(o, sc, sc.probes);
    assert t == FormEntry(o) + rest;
    assert forall i :: 4 <= i < |t| ==> t[i] == rest[i - 4];
    assert forall i :: 4 <= i < |t| ==> t[i] in rest;
  }

  /**
   * The whole of `fill_the_form` when the probe misses k times and then hits:
   * the form, k+1 turns, the receipt steps, ending as the receipt steps do.
   */
  lemma FormAfterMisses(o: Order, sc: OrderScript, k: nat)
    requires k < |sc.probes| && sc.probes[k]
    requires forall j :: 0 <= j < k ==> !sc.probes[j]
    ensures FormOutcome(o, sc).actions == FormEntry(o) + Repeat(Attempt, k + 1) + ReceiptOutcome(o, sc).actions
    ensures FormOutcome(o, sc).status == ReceiptOutcome(o, sc).status
  {
    RetryClosedForm(o, sc, sc.probes, k);
    AppendAssoc(FormEntry(o), Repeat(Attempt, k + 1), ReceiptOutcome(o, sc).actions);
  }

  /**
   * Retry counting: when the probe misses on the first k attempts and hits on
   * attempt k+1, exactly k+1 submit clicks and k+1 probes occur, and exactly
   * one receipt is rendered.
   */
  lemma RetryCounts(o: Order, sc: OrderScript, k: nat)
    requires k < |sc.probes| && sc.probes[k]
    requires forall j :: 0 <= j < k ==> !sc.probes[j]
    ensures var t := FormOutcome(o, sc).actions;
      && Count(t, Click(SubmitButton)) == k + 1
      && Count(t, Query(OrderAnother)) == k + 1
      && Receipts(t) == [PdfPath(o.number)]
  {
    var r := ReceiptOutcome(o, sc).actions;
    var turns := Repeat(Attempt, k + 1);
    var t := FormOutcome(o, sc).actions;
    assert t == FormEntry(o) + turns + r by {
      FormAfterMisses(o, sc, k);
    }
    assert Count(t, Click(SubmitButton)) == k + 1 && Count(t, Query(OrderAnother)) == k + 1 by {
      FormEntryFacts(o);
      ReceiptQuiet(o, sc);
      assert Count(Attempt, Click(SubmitButton)) == 1 && Count(Attempt, Query(OrderAnother)) == 1 by {
        assert Attempt[1..] == [Query(OrderAnother)];
        assert Attempt[1..][1..] == [];
        assert Count(Attempt[1..], Query(OrderAnother)) == 1;
        assert Count(Attempt[1..], Click(SubmitButton)) == 0;
      }
      TurnCount(FormEntry(o), k + 1, r, Click(SubmitButton));
      TurnCount(FormEntry(o), k + 1, r, Query(OrderAnother));
    }
    assert Receipts(t) == [PdfPath(o.number)] by {
      FormEntryFacts(o);
      ReceiptQuiet(o, sc);
      RepeatReceipts(k + 1);
      ReceiptsAppend(FormEntry(o) + turns, r);
      ReceiptsAppend(FormEntry(o), turns);
      assert [] + [] + [PdfPath(o.number)] == [PdfPath(o.number)];
    }
  }

  /** An action made once per turn, and neither before nor after the turns, is counted once per turn. */
  lemma TurnCount(before: seq<Action>, n: nat, after: seq<Action>, a: Action)
    requires Count(Attempt, a) == 1 && a !in before && a !in after
    ensures Count(before + Repeat(Attempt, n) + after, a) == n
  {
    var turns := Repeat(Attempt, n);
    CountZero(before, a);
    CountZero(after, a);
    CountRepeat(Attempt, n, a);
    CountZero(Attempt, a);
    CountAppend(before + turns, after, a);
    CountAppend(before, turns, a);
  }

  lemma {:induction false} RepeatReceipts(n: nat)
    ensures Receipts(Repeat(Attempt, n)) == []
  {
    if n > 0 {
      AttemptFacts(Order("", "", "", "", ""));
      RepeatReceipts(n - 1);
      ReceiptsAppend(Attempt, Repeat(Attempt, n - 1));
    }
  }

  /**
   * No receipt step runs after a missed probe: when the probe misses k times
   * and then hits, every receipt step comes after every probe.
   */
  lemma ReceiptAfterLastProbe(o: Order, sc: OrderScript, k: nat)
    requires k < |sc.probes| && sc.probes[k]
    requires forall j :: 0 <= j < k ==> !sc.probes[j]
    ensures var t := FormOutcome(o, sc).actions;
      forall i, j :: 0 <= i < |t| && 0 <= j < |t| && t[i] == Query(OrderAnother) && BuildsReceipt(t[j]) ==> i < j
  {
    var r := ReceiptOutcome(o, sc).actions;
    var head := FormEntry(o) + Repeat(Attempt, k + 1);
    assert FormOutcome(o, sc).actions == head + r by {
      FormAfterMisses(o, sc, k);
    }
    TurnsBuildNothing(o, k + 1);
    assert Query(OrderAnother) !in r by {
      ReceiptQuiet(o, sc);
    }
    ProbesBeforeReceipt(head, r);
  }

  /** The form entries and any number of turns contain no receipt step. */
  lemma TurnsBuildNothing(o: Order, n: nat)
    ensures forall a :: a in FormEntry(o) + Repeat(Attempt, n) ==> !BuildsReceipt(a)
  {
    FormEntryFacts(o);
    AttemptFacts(o);
    RepeatMembers(Attempt, n);
  }

  /** When no receipt step precedes the split and no probe follows it, every probe precedes every receipt step. */
  lemma ProbesBeforeReceipt(head: seq<Action>, r: seq<Action>)
    requires forall a :: a in head ==> !BuildsReceipt(a)
    requires Query(OrderAnother) !in r
    ensures var t := head + r;
      forall i, j :: 0 <= i < |t| && 0 <= j < |t| && t[i] == Query(OrderAnother) && BuildsReceipt(t[j]) ==> i < j
  {
    var t := head + r;
    forall j | |head| <= j < |t| ensures t[j] != Query(OrderAnother) {
      assert t[j] == r[j - |head|];
    }
    forall i | 0 <= i < |head| ensures !BuildsReceipt(t[i]) {
      assert t[i] == head[i];
    }
  }

  /**
   * The step order on success: store the receipt, locate and capture the
   * preview, resize it to width 500, embed it into the stored receipt, click
   * "order another", dismiss the modal; then the loop exits.
   */
  lemma SuccessOrder(o: Order, sc: OrderScript, captured: Size)
    requires true in sc.probes
    requires sc.preview == Some(captured) && Resizable(captured)
    ensures var n := FirstHit(sc.probes);
      FormOutcome(o, sc) ==
      Outcome(FormEntry(o) + Repeat(Attempt, n + 1) +
              [ HtmlToPdf(sc.receiptHtml, PdfPath(o.number)),
                Query(PreviewImage),
                ElementScreenshot(PreviewImage, PngPath(o.number), captured),
                ResizeImage(PngPath(o.number), Size(TargetWidth, captured.height * TargetWidth / captured.width)),
                AddFilesToPdf([PngPath(o.number)], PdfPath(o.number)),
                Click(OrderAnother),
                Click(ModalOk) ],
              Done)
  {
    FormAfterMisses(o, sc, FirstHit(sc.probes));
    ReceiptOnSuccess(o, sc, captured);
  }

  /** The receipt steps of an order whose preview exists and can be resized. */
  lemma ReceiptOnSuccess(o: Order, sc: OrderScript, captured: Size)
    requires sc.preview == Some(captured) && Resizable(captured)
    ensures ReceiptOutcome(o, sc) ==
      Outcome([ HtmlToPdf(sc.receiptHtml, PdfPath(o.number)),
                Query(PreviewImage),
                ElementScreenshot(PreviewImage, PngPath(o.number), captured),
                ResizeImage(PngPath(o.number), ResizeTarget(captured).value),
                AddFilesToPdf([PngPath(o.number)], PdfPath(o.number)),
                Click(OrderAnother),
                Click(ModalOk) ],
              Done)
  {
  }

  /** Rendering, then locating, capturing and resizing the snapshot. */
  lemma ReplayCapture(fs: FileSystem, html: string, pdf: string, png: string, captured: Size, target: Size)
    requires pdf != png
    ensures var after := Replay(fs, [ HtmlToPdf(html, pdf), Query(PreviewImage),
                                      ElementScreenshot(PreviewImage, png, captured), ResizeImage(png, target) ]);
      && pdf in after && png in after
      && after[pdf] == Pdf([HtmlPart(html)]) && after[png] == Png(target)
  {
    var t := [ HtmlToPdf(html, pdf), Query(PreviewImage),
               ElementScreenshot(PreviewImage, png, captured), ResizeImage(png, target) ];
    ReplayFirstThree(fs, t);
    var fs3 := Apply(Apply(Apply(fs, t[0]), t[1]), t[2]);
    assert t[3..] == [ResizeImage(png, target)];
    assert Replay(fs3, t[3..]) == Apply(fs3, t[3]);
  }

  /** Embedding the snapshot into the rendered receipt, then the two clicks. */
  lemma ReplayEmbed(fs: FileSystem, html: string, pdf: string, png: string, target: Size)
    requires pdf != png && pdf in fs && png in fs
    requires fs[pdf] == Pdf([HtmlPart(html)]) && fs[png] == Png(target)
    ensures var after := Replay(fs, [AddFilesToPdf([png], pdf), Click(OrderAnother), Click(ModalOk)]);
      && pdf in after && png in after
      && after[pdf] == Pdf([HtmlPart(html), ImagePart(png, target)])
      && after[png] == Png(target)
  {
    var t := [AddFilesToPdf([png], pdf), Click(OrderAnother), Click(ModalOk)];
    assert ImageParts(fs, [png]) == [ImagePart(png, target)];
    ReplayFirstThree(fs, t);
    assert t[3..] == [];
  }

  /** Replaying the successful receipt steps: render, capture, resize, embed, then two clicks. */
  lemma ReplayReceipt(fs: FileSystem, html: string, pdf: string, png: string, captured: Size, target: Size)
    requires pdf != png
    ensures var after := Replay(fs, [ HtmlToPdf(html, pdf), Query(PreviewImage),
                                      ElementScreenshot(PreviewImage, png, captured), ResizeImage(png, target),
                                      AddFilesToPdf([png], pdf), Click(OrderAnother), Click(ModalOk) ]);
      && pdf in after && png in after
      && after[pdf] == Pdf([HtmlPart(html), ImagePart(png, target)])
      && after[png] == Png(target)
  {
    var capture := [ HtmlToPdf(html, pdf), Query(PreviewImage),
                     ElementScreenshot(PreviewImage, png, captured), ResizeImage(png, target) ];
    var embed := [AddFilesToPdf([png], pdf), Click(OrderAnother), Click(ModalOk)];
    assert capture + embed == [ HtmlToPdf(html, pdf), Query(PreviewImage),
                                ElementScreenshot(PreviewImage, png, captured), ResizeImage(png, target),
                                AddFilesToPdf([png], pdf), Click(OrderAnother), Click(ModalOk) ];
    ReplayAppend(fs, capture, embed);
    ReplayCapture(fs, html, pdf, png, captured, target);
    ReplayEmbed(Replay(fs, capture), html, pdf, png, target);
  }

  /** The file system after the receipt steps of a successful order, from any file system. */
  lemma ReceiptFiles(fs: FileSystem, o: Order, sc: OrderScript, captured: Size)
    requires sc.preview == Some(captured) && Resizable(captured)
    ensures var after := Replay(fs, ReceiptOutcome(o, sc).actions);
      var target := ResizeTarget(captured).value;
      && PdfPath(o.number) in after && PngPath(o.number) in after
      && after[PdfPath(o.number)] == Pdf([HtmlPart(sc.receiptHtml), ImagePart(PngPath(o.number), target)])
      && after[PngPath(o.number)] == Png(target)
  {
    PdfNeverPng(o.number, o.number);
    ReceiptOnSuccess(o, sc, captured);
    ReplayReceipt(fs, sc.receiptHtml, PdfPath(o.number), PngPath(o.number), captured, ResizeTarget(captured).value);
  }

  /**
   * A successfully submitted order leaves its receipt holding the rendered
   * confirmation followed by the one snapshot, and the snapshot at width 500;
   * whatever was at those paths before is replaced.
   */
  lemma FormReceiptFiles(fs: FileSystem, o: Order, sc: OrderScript)
    requires FormOutcome(o, sc).status == Done
    ensures sc.preview.Some? && Resizable(sc.preview.value)
    ensures var after := Replay(fs, FormOutcome(o, sc).actions);
      var target := ResizeTarget(sc.preview.value).value;
      && target.width == TargetWidth && target.height > 0
      && PdfPath(o.number) in after && PngPath(o.number) in after
      && after[PdfPath(o.number)] == Pdf([HtmlPart(sc.receiptHtml), ImagePart(PngPath(o.number), target)])
      && after[PngPath(o.number)] == Png(target)
  {
    assert true in sc.probes && ReceiptOutcome(o, sc).status == Done by {
      RetryStatus(o, sc, sc.probes);
    }
    assert sc.preview.Some? && Resizable(sc.preview.value) by {
      ReceiptSteps(o, sc);
    }
    var head := FormEntry(o) + Repeat(Attempt, FirstHit(sc.probes) + 1);
    var r := ReceiptOutcome(o, sc).actions;
    assert Replay(fs, FormOutcome(o, sc).actions) == Replay(Replay(fs, head), r) by {
      FormAfterMisses(o, sc, FirstHit(sc.probes));
      assert FormOutcome(o, sc).actions == head + r;
      ReplayAppend(fs, head, r);
    }
    ReceiptFiles(Replay(fs, head), o, sc, sc.preview.value);
  }

  /**
   * `process_orders`: the run ends normally exactly when every row does, and
   * the receipts are rendered one per row in input order: all of them when
   * the run ends normally, and a prefix of them otherwise. Everything
   * written lies under the output folder, and nothing is archived.
   */
  lemma {:induction false} ProcessFacts(orders: seq<Order>, site: seq<OrderScript>, i: nat)
    requires i <= |orders|
    ensures var p := ProcessFrom(orders, site, i);
      && (forall a :: a in p.actions ==> !a.ArchiveFolder? && (Written(a).Some? ==> OutputDir <= Written(a).value))
      && (p.status == Done <==> forall j :: i <= j < |orders| ==> FormOutcome(orders[j], ScriptAt(site, j)).status == Done)
      && Receipts(p.actions) <= PdfPaths(orders[i..])
      && (p.status == Done ==> Receipts(p.actions) == PdfPaths(orders[i..]))
    decreases |orders| - i
  {
    ProcessWrites(orders, site, i);
    if i < |orders| {
      var o, sc := orders[i], ScriptAt(site, i);
      var first := FormOutcome(o, sc);
      var pdf := PdfPath(o.number);
      assert PdfPaths(orders[i..]) == [pdf] + PdfPaths(orders[i + 1..]) by {
        assert orders[i..][1..] == orders[i + 1..];
      }
      if first.status == Done {
        var rest := ProcessFrom(orders, site, i + 1);
        ProcessFacts(orders, site, i + 1);
        assert Receipts(ProcessFrom(orders, site, i).actions) == [pdf] + Receipts(rest.actions) by {
          assert ProcessFrom(orders, site, i).actions == first.actions + rest.actions;
          FormFacts(o, sc);
          ReceiptsAppend(first.actions, rest.actions);
        }
      } else {
        FormFacts(o, sc);
      }
    }
  }

  /** Every action a trace performs stays inside the output folder and none archives. */
  predicate InOutput(t: seq<Action>)
  {
    forall a :: a in t ==> !a.ArchiveFolder? && (Written(a).Some? ==> OutputDir <= Written(a).value)
  }

  lemma InOutputAppend(s: seq<Action>, t: seq<Action>)
    requires InOutput(s) && InOutput(t)
    ensures InOutput(s + t)
  {
  }

  /** Processing from row i writes only inside the output folder and never archives. */
  lemma {:induction false} ProcessWrites(orders: seq<Order>, site: seq<OrderScript>, i: nat)
    requires i <= |orders|
    ensures InOutput(ProcessFrom(orders, site, i).actions)
    decreases |orders| - i
  {
    if i < |orders| {
      var first := FormOutcome(orders[i], ScriptAt(site, i));
      assert InOutput(first.actions) by {
        FormFacts(orders[i], ScriptAt(site, i));
      }
      if first.status == Done {
        ProcessWrites(orders, site, i + 1);
        InOutputAppend(first.actions, ProcessFrom(orders, site, i + 1).actions);
      }
    }
  }

  /** One call of `fill_the_form` writes only its order's artifacts and renders at most its one receipt. */
  lemma FormFacts(o: Order, sc: OrderScript)
    ensures var f := FormOutcome(o, sc);
      && (forall a :: a in f.actions ==> WritesOwnArtifacts(o, a))
      && Receipts(f.actions) == (if true in sc.probes then [PdfPath(o.number)] else [])
      && (f.status == Done ==> Receipts(f.actions) == [PdfPath(o.number)])
  {
    var entries := FormEntry(o);
    var loop := RetryOutcome(o, sc, sc.probes);
    assert FormOutcome(o, sc).actions == entries + loop.actions;
    assert forall a :: a in entries + loop.actions ==> WritesOwnArtifacts(o, a) by {
      FormEntryFacts(o);
      RetrySteps(o, sc, sc.probes);
    }
    assert Receipts(entries + loop.actions) == Receipts(loop.actions) by {
      FormEntryFacts(o);
      ReceiptsAppend(entries, loop.actions);
      assert [] + Receipts(loop.actions) == Receipts(loop.actions);
    }
    RetryReceipts(o, sc, sc.probes);
    RetryStatus(o, sc, sc.probes);
  }

  /**
   * While the rows before m end normally, processing from row i is the run
   * of those rows alone, followed by processing from row m.
   */
  lemma {:induction false} ProcessPrefix(orders: seq<Order>, site: seq<OrderScript>, i: nat, m: nat)
    requires i <= m <= |orders|
    requires forall j :: i <= j < m ==> FormOutcome(orders[j], ScriptAt(site, j)).status == Done
    ensures ProcessFrom(orders, site, i)
         == Prepend(ProcessFrom(orders[..m], site, i).actions, ProcessFrom(orders, site, m))
    decreases m - i
  {
    var rest := ProcessFrom(orders, site, m);
    if i == m {
      assert ProcessFrom(orders[..m], site, i) == Outcome([], Done);
      assert [] + rest.actions == rest.actions;
    } else {
      var first := FormOutcome(orders[i], ScriptAt(site, i));
      assert first.status == Done;
      assert orders[..m][i] == orders[i];
      ProcessPrefix(orders, site, i + 1, m);
      var before := ProcessFrom(orders[..m], site, i + 1).actions;
      assert ProcessFrom(orders[..m], site, i).actions == first.actions + before;
      AppendAssoc(first.actions, before, rest.actions);
    }
  }

  /**
   * An uncaught error (or an endless retry) at row m stops the run there:
   * the run ends as row m did, and no row after m is attempted.
   */
  lemma {:induction false} ProcessStopsAtFirstFailure(orders: seq<Order>, site: seq<OrderScript>, i: nat, m: nat)
    requires i <= m < |orders|
    requires forall j :: i <= j < m ==> FormOutcome(orders[j], ScriptAt(site, j)).status == Done
    requires FormOutcome(orders[m], ScriptAt(site, m)).status != Done
    ensures ProcessFrom(orders, site, i).status == FormOutcome(orders[m], ScriptAt(site, m)).status
    ensures Receipts(ProcessFrom(orders, site, i).actions)
         == PdfPaths(orders[i..m]) + Receipts(FormOutcome(orders[m], ScriptAt(site, m)).actions)
    ensures ProcessFrom(orders, site, i)
         == Prepend(ProcessFrom(orders[..m], site, i).actions, FormOutcome(orders[m], ScriptAt(site, m)))
    decreases m - i
  {
    assert ProcessFrom(orders, site, m) == FormOutcome(orders[m], ScriptAt(site, m));
    ProcessPrefix(orders, site, i, m);
    if i == m {
      assert PdfPaths(orders[i..m]) == [];
    } else {
      var first := FormOutcome(orders[i], ScriptAt(site, i));
      var rest := ProcessFrom(orders, site, i + 1);
      assert first.status == Done;
      assert ProcessFrom(orders, site, i) == Prepend(first.actions, rest);
      ProcessStopsAtFirstFailure(orders, site, i + 1, m);
      assert Receipts(first.actions) == [PdfPath(orders[i].number)] by {
        FormFacts(orders[i], ScriptAt(site, i));
      }
      ReceiptsAppend(first.actions, rest.actions);
      assert PdfPaths(orders[i..m]) == [PdfPath(orders[i].number)] + PdfPaths(orders[i + 1..m]) by {
        assert orders[i..m][1..] == orders[i + 1..m];
      }
      AppendAssoc([PdfPath(orders[i].number)], PdfPaths(orders[i + 1..m]),
                  Receipts(FormOutcome(orders[m], ScriptAt(site, m)).actions));
    }
  }
}
