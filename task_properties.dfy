/**
 * What the task entry `order_robots_from_robot_spare_bin` of tasks.py
 * promises about the whole run: its step order, that archiving happens once
 * and last, what the archive holds, and that an aborted run leaves no archive.
 */
module TaskProperties {
  import opened Maybe
  import opened Artifacts
  import opened Snapshot
  import opened Actions
  import opened Files
  import opened Orders
  import opened OrderProperties

  /** The steps before the rows touch no file. */
  lemma OpeningFacts()
    ensures forall a :: a in Opening ==> Written(a) == None
    ensures ArchiveStep !in Opening
  {
  }

  /**
   * The run opens the site, closes the modal and downloads the table, in that
   * order, then processes the rows; it ends as processing does; and it
   * archives exactly once, as its last step, exactly when every row ended
   * normally.
   */
  lemma TaskShape(orders: seq<Order>, site: seq<OrderScript>)
    ensures var t := TaskOutcome(orders, site);
      && |t.actions| >= 3 && t.actions[..3] == Opening
      && t.status == ProcessOutcome(orders, site).status
      && Count(t.actions, ArchiveStep) == (if t.status == Done then 1 else 0)
      && (t.status == Done ==> t.actions[|t.actions| - 1] == ArchiveStep)
  {
    var p := ProcessOutcome(orders, site);
    ProcessFacts(orders, site, 0);
    assert ArchiveStep !in p.actions;
    ArchiveCount(p.actions);
  }

  /** Around rows that never archive, the opening adds no archiving step and the closing one adds exactly one. */
  lemma ArchiveCount(rows: seq<Action>)
    requires ArchiveStep !in rows
    ensures Count(Opening + rows, ArchiveStep) == 0
    ensures Count(Opening + rows + [ArchiveStep], ArchiveStep) == 1
  {
    OpeningFacts();
    CountZero(Opening + rows, ArchiveStep);
    assert Count([ArchiveStep], ArchiveStep) == 1 by {
      assert [ArchiveStep][1..] == [];
    }
    CountAppend(Opening + rows, [ArchiveStep], ArchiveStep);
  }

  /** Every row that ended normally has its receipt and its snapshot on disk once processing is over. */
  lemma {:induction false} ProcessLeavesArtifacts(fs: FileSystem, orders: seq<Order>, site: seq<OrderScript>, i: nat)
    requires i <= |orders|
    requires ProcessFrom(orders, site, i).status == Done
    ensures var after := Replay(fs, ProcessFrom(orders, site, i).actions);
      forall j :: i <= j < |orders| ==> PdfPath(orders[j].number) in after && PngPath(orders[j].number) in after
    decreases |orders| - i
  {
    if i < |orders| {
      var first := FormOutcome(orders[i], ScriptAt(site, i));
      var rest := ProcessFrom(orders, site, i + 1);
      assert first.status == Done;
      ReplayAppend(fs, first.actions, rest.actions);
      FormReceiptFiles(fs, orders[i], ScriptAt(site, i));
      ReplayKeepsFiles(Replay(fs, first.actions), rest.actions);
      ProcessLeavesArtifacts(Replay(fs, first.actions), orders, site, i + 1);
    }
  }

  /**
   * A run that ends normally leaves the archive, and the archive holds the
   * receipt and the snapshot of every row, and only files of the output folder.
   */
  lemma TaskBundle(fs: FileSystem, orders: seq<Order>, site: seq<OrderScript>)
    requires TaskOutcome(orders, site).status == Done
    ensures var after := Replay(fs, TaskOutcome(orders, site).actions);
      && ArchiveName in after && after[ArchiveName].Zip?
      && (forall e :: e in after[ArchiveName].entries ==> OutputDir <= e)
      && (forall j :: 0 <= j < |orders| ==>
            PdfPath(orders[j].number) in after[ArchiveName].entries
            && PngPath(orders[j].number) in after[ArchiveName].entries)
  {
    var p := ProcessOutcome(orders, site);
    var before := Replay(fs, Opening + p.actions);
    ReplayAppend(fs, Opening + p.actions, [ArchiveStep]);
    ReplayAppend(fs, Opening, p.actions);
    ProcessLeavesArtifacts(Replay(fs, Opening), orders, site, 0);
    assert Replay(before, [ArchiveStep]) == Apply(before, ArchiveStep);
  }

  /**
   * A run that does not end normally writes no archive: if there was none
   * before, there is none after.
   */
  lemma TaskAbortLeavesNoBundle(fs: FileSystem, orders: seq<Order>, site: seq<OrderScript>)
    requires TaskOutcome(orders, site).status != Done
    requires ArchiveName !in fs
    ensures ArchiveStep !in TaskOutcome(orders, site).actions
    ensures ArchiveName !in Replay(fs, TaskOutcome(orders, site).actions)
  {
    var p := ProcessOutcome(orders, site);
    var t := TaskOutcome(orders, site).actions;
    ProcessFacts(orders, site, 0);
    OpeningFacts();
    assert ArchiveName[0] != OutputDir[0];
    assert !(OutputDir <= ArchiveName);
    assert t == Opening + p.actions;
    forall a | a in t ensures Written(a) != Some(ArchiveName) {
      if a in p.actions {
        assert Written(a).Some? ==> OutputDir <= Written(a).value;
      }
    }
    ReplayUntouched(fs, t, ArchiveName);
  }

  /**
   * A row whose preview element is absent after a successful submit aborts
   * the whole run with that error, after the rows before it, and no archive
   * is written.
   */
  lemma PreviewMissingAbortsRun(fs: FileSystem, orders: seq<Order>, site: seq<OrderScript>, m: nat)
    requires m < |orders|
    requires forall j :: 0 <= j < m ==> FormOutcome(orders[j], ScriptAt(site, j)).status == Done
    requires true in ScriptAt(site, m).probes && ScriptAt(site, m).preview.None?
    requires ArchiveName !in fs
    ensures TaskOutcome(orders, site).status == Fatal(PreviewNotFound)
    ensures ArchiveName !in Replay(fs, TaskOutcome(orders, site).actions)
  {
    var sc := ScriptAt(site, m);
    RetryEnds(orders[m], sc, sc.probes);
    ReceiptSteps(orders[m], sc);
    assert FormOutcome(orders[m], sc).status == Fatal(PreviewNotFound);
    ProcessStopsAtFirstFailure(orders, site, 0, m);
    TaskAbortLeavesNoBundle(fs, orders, site);
  }

  /**
   * End to end, for a run of one row that ends normally: the receipt holds the
   * confirmation and then the snapshot, the snapshot is 500 wide, and the
   * archive holds both.
   */
  lemma TaskSingleOrder(fs: FileSystem, o: Order, sc: OrderScript)
    requires TaskOutcome([o], [sc]).status == Done
    ensures sc.preview.Some? && Resizable(sc.preview.value)
    ensures var after := Replay(fs, TaskOutcome([o], [sc]).actions);
      var target := ResizeTarget(sc.preview.value).value;
      && target.width == TargetWidth && target.height > 0
      && PdfPath(o.number) in after && PngPath(o.number) in after && ArchiveName in after
      && after[PdfPath(o.number)] == Pdf([HtmlPart(sc.receiptHtml), ImagePart(PngPath(o.number), target)])
      && after[PngPath(o.number)] == Png(target)
      && after[ArchiveName].Zip?
      && PdfPath(o.number) in after[ArchiveName].entries && PngPath(o.number) in after[ArchiveName].entries
  {
    var f := FormOutcome(o, sc);
    assert ScriptAt([sc], 0) == sc;
    assert ProcessFrom([o], [sc], 1) == Outcome([], Done);
    assert ProcessOutcome([o], [sc]).actions == f.actions + [];
    assert f.actions + [] == f.actions;
    var start := Replay(fs, Opening);
    var processed := Replay(start, f.actions);
    ReplayAppend(fs, Opening + f.actions, [ArchiveStep]);
    ReplayAppend(fs, Opening, f.actions);
    FormReceiptFiles(start, o, sc);
    ArtifactsInOutputDir(o.number);
    assert Replay(processed, [ArchiveStep]) == Apply(processed, ArchiveStep);
  }
}

