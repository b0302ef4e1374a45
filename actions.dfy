/**
 * The observable effects of tasks.py, recorded as a trace: every call that
 * changes the page, a file or the archive, and every element query, becomes
 * one Action, appended in the order the program performs it. Calls that only
 * read an answer (the receipt markup, the captured image's size) leave no
 * Action; their answers come from the site's script for the order.
 */
module Actions {
  import opened Snapshot

  datatype Action =
    | Goto(url: string)                                        // browser.goto
    | Click(selector: string)                                  // page.click
    | SelectOption(selector: string, option: string)           // page.select_option
    | Fill(selector: string, text: string)                     // page.fill
    | Query(selector: string)                                  // page.query_selector
    | Download(url: string)                                    // Http.download
    | HtmlToPdf(html: string, path: string)                    // Pdf.html_to_pdf
    | ElementScreenshot(selector: string, path: string, size: Size)  // element.screenshot; size as captured
    | ResizeImage(path: string, size: Size)                    // Image.resize then save, in place
    | AddFilesToPdf(files: seq<string>, target: string)        // Pdf.add_files_to_pdf with append=True
    | ArchiveFolder(folder: string, archive: string)           // Archive.archive_folder_with_zip

  /** Regrouping a trace; stated once so that longer proofs can use it as a single step. */
  lemma AppendAssoc<T>(a: seq<T>, b: seq<T>, c: seq<T>)
    ensures (a + b) + c == a + (b + c)
  {
  }

  /** How many times `a` occurs in `t`. */
  function Count(t: seq<Action>, a: Action): nat
  {
    if t == [] then 0 else (if t[0] == a then 1 else 0) + Count(t[1..], a)
  }

  /** An action is counted at least once exactly when it occurs. */
  lemma {:induction false} CountZero(t: seq<Action>, a: Action)
    ensures Count(t, a) == 0 <==> a !in t
  {
    if t != [] {
      CountZero(t[1..], a);
      assert t == [t[0]] + t[1..];
    }
  }

  lemma {:induction false} CountAppend(s: seq<Action>, t: seq<Action>, a: Action)
    ensures Count(s + t, a) == Count(s, a) + Count(t, a)
  {
    if s == [] {
      assert s + t == t;
    } else {
      assert (s + t)[1..] == s[1..] + t;
      CountAppend(s[1..], t, a);
    }
  }

  /** `n` copies of `s`, back to back. */
  function Repeat(s: seq<Action>, n: nat): seq<Action>
  {
    if n == 0 then [] else s + Repeat(s, n - 1)
  }

  /** Copies hold nothing that `s` does not. */
  lemma {:induction false} RepeatMembers(s: seq<Action>, n: nat)
    ensures forall a :: a in Repeat(s, n) ==> a in s
  {
    if n > 0 {
      RepeatMembers(s, n - 1);
    }
  }

  /** An action that occurs once in `s` occurs `n` times in `n` copies; one absent from `s` never. */
  lemma CountRepeat(s: seq<Action>, n: nat, a: Action)
    requires Count(s, a) <= 1
    ensures Count(Repeat(s, n), a) == if a in s then n else 0
  {
    CountZero(s, a);
    if a in s {
      CountRepeatPresent(s, n, a);
    } else {
      RepeatMembers(s, n);
      CountZero(Repeat(s, n), a);
    }
  }

  lemma {:induction false} CountRepeatPresent(s: seq<Action>, n: nat, a: Action)
    requires Count(s, a) == 1
    ensures Count(Repeat(s, n), a) == n
  {
    if n > 0 {
      CountAppend(s, Repeat(s, n - 1), a);
      CountRepeatPresent(s, n - 1, a);
    }
  }
}
