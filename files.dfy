/**
 * What the document, image and archive operations of tasks.py leave on disk:
 * a file system maps a path to a file, and each Action of a trace updates it.
 * Browser actions do not touch the file system.
 */
module Files {
  import opened Maybe
  import opened Snapshot
  import opened Actions

  /** One section of a document: rendered markup, or an appended image file. */
  datatype Part = HtmlPart(html: string) | ImagePart(source: string, size: Size)

  datatype File =
    | Pdf(parts: seq<Part>)
    | Png(size: Size)
    | Zip(entries: set<string>)

  type FileSystem = map<string, File>

  /** The path an action writes, if it writes one. */
  function Written(a: Action): Option<string>
  {
    match a
    case HtmlToPdf(_, path) => Some(path)
    case ElementScreenshot(_, path, _) => Some(path)
    case ResizeImage(path, _) => Some(path)
    case AddFilesToPdf(_, target) => Some(target)
    case ArchiveFolder(_, archive) => Some(archive)
    case _ => None
  }

  /** The document parts already at `path`: none when it holds no document. */
  function PriorParts(fs: FileSystem, path: string): seq<Part>
  {
    if path in fs && fs[path].Pdf? then fs[path].parts else []
  }

  /** The image sections appended for `files`, in order; a file that is not an image adds none. */
  function ImageParts(fs: FileSystem, files: seq<string>): seq<Part>
  {
    if files == [] then []
    else
      (if files[0] in fs && fs[files[0]].Png? then [ImagePart(files[0], fs[files[0]].size)] else [])
      + ImageParts(fs, files[1..])
  }

  /** The files under `folder` (a path prefix). */
  function FilesUnder(fs: FileSystem, folder: string): (entries: set<string>)
    ensures forall p :: p in entries <==> p in fs && folder <= p
  {
    set p | p in fs && folder <= p
  }

  /**
   * The effect of one action. Rendering and capturing overwrite; resizing
   * overwrites the image in place; appending keeps the document's earlier
   * parts; archiving writes the archive of the folder as it stands.
   */
  function Apply(fs: FileSystem, a: Action): (after: FileSystem)
    ensures fs.Keys <= after.Keys
    ensures Written(a).Some? ==> Written(a).value in after
    ensures forall p :: Written(a) != Some(p) ==> (p in after <==> p in fs)
    ensures forall p :: Written(a) != Some(p) && p in fs ==> after[p] == fs[p]
  {
    match a
    case HtmlToPdf(html, path) => fs[path := Pdf([HtmlPart(html)])]
    case ElementScreenshot(_, path, size) => fs[path := Png(size)]
    case ResizeImage(path, size) => fs[path := Png(size)]
    case AddFilesToPdf(files, target) => fs[target := Pdf(PriorParts(fs, target) + ImageParts(fs, files))]
    case ArchiveFolder(folder, archive) => fs[archive := Zip(FilesUnder(fs, folder))]
    case _ => fs
  }

  /** The file system after every action of `t`, in order. */
  function Replay(fs: FileSystem, t: seq<Action>): FileSystem
    decreases |t|
  {
    if t == [] then fs else Replay(Apply(fs, t[0]), t[1..])
  }

  lemma {:induction false} ReplayAppend(fs: FileSystem, s: seq<Action>, t: seq<Action>)
    ensures Replay(fs, s + t) == Replay(Replay(fs, s), t)
    decreases |s|
  {
    if s == [] {
      assert s + t == t;
    } else {
      assert (s + t)[1..] == s[1..] + t;
      ReplayAppend(Apply(fs, s[0]), s[1..], t);
    }
  }

  /** Replaying the first three actions of a trace one by one. */
  lemma ReplayFirstThree(fs: FileSystem, t: seq<Action>)
    requires 3 <= |t|
    ensures Replay(fs, t) == Replay(Apply(Apply(Apply(fs, t[0]), t[1]), t[2]), t[3..])
  {
    var fs1 := Apply(fs, t[0]);
    var fs2 := Apply(fs1, t[1]);
    assert Replay(fs, t) == Replay(fs1, t[1..]);
    assert t[1..][1..] == t[2..];
    assert Replay(fs1, t[1..]) == Replay(fs2, t[2..]);
    assert t[2..][1..] == t[3..];
  }

  /** No action removes a file. */
  lemma {:induction false} ReplayKeepsFiles(fs: FileSystem, t: seq<Action>)
    ensures fs.Keys <= Replay(fs, t).Keys
    decreases |t|
  {
    if t != [] {
      ReplayKeepsFiles(Apply(fs, t[0]), t[1..]);
    }
  }

  /** A path no action of `t` writes keeps its file, or its absence. */
  lemma {:induction false} ReplayUntouched(fs: FileSystem, t: seq<Action>, p: string)
    requires forall a :: a in t ==> Written(a) != Some(p)
    ensures p in Replay(fs, t) <==> p in fs
    ensures p in fs ==> Replay(fs, t)[p] == fs[p]
    decreases |t|
  {
    if t != [] {
      assert t[0] in t;
      assert forall a :: a in t[1..] ==> a in t;
      ReplayUntouched(Apply(fs, t[0]), t[1..], p);
    }
  }

  /**
   * Embedding appends and never replaces: the document keeps every earlier
   * part, and embedding the same image twice gives it twice.
   */
  lemma EmbedAppends(fs: FileSystem, image: string, target: string)
    requires image != target && image in fs && fs[image].Png?
    ensures Apply(fs, AddFilesToPdf([image], target))[target]
         == Pdf(PriorParts(fs, target) + [ImagePart(image, fs[image].size)])
    ensures Apply(Apply(fs, AddFilesToPdf([image], target)), AddFilesToPdf([image], target))[target]
         == Pdf(PriorParts(fs, target) + [ImagePart(image, fs[image].size), ImagePart(image, fs[image].size)])
  {
    var part := ImagePart(image, fs[image].size);
    assert ImageParts(fs, [image]) == [part];
    var once := Apply(fs, AddFilesToPdf([image], target));
    assert ImageParts(once, [image]) == [part];
    assert PriorParts(once, target) == PriorParts(fs, target) + [part];
  }
}
