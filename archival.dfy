/** The channel archival unit (`archive_one_channel`) and the batch that
    archives a selection one chat at a time.

    The exporter, the converter and the file system are not modelled as
    programs: a `ToolRun` records what they did (exit status, files left
    behind), and the unit answers with the ordered steps it performs and the
    PDF path it returns. */
module Archival {
  import opened Wrappers
  import opened Text
  import opened Seqs
  import opened Entities
  import Sanitize

  type Path = string

  // ---------------------------------------------------------------------
  // Artifact names
  // ---------------------------------------------------------------------

  /** The label a chat is archived under: `#name` for a channel or thread,
      `DM with <recipient handle>` for a direct message. */
  function ChatLabel(c: Chat): string {
    match c
    case DirectMessage(_, recipient) => "DM with " + recipient
    case _ => "#" + ChatName(c)
  }

  /** `discord_export_<sanitized label>_<id>`, shared by the HTML file, the
      PDF file and the media directory. */
  function ExportBase(c: Chat): string {
    "discord_export_" + Sanitize.SanitizeFilename(ChatLabel(c)) + "_" + Decimal(c.id)
  }

  /** POSIX `os.path.join(dir, name)`. */
  function PathJoin(dir: Path, name: string): Path {
    if name != [] && name[0] == '/' then name
    else if dir == [] || dir[|dir| - 1] == '/' then dir + name
    else dir + "/" + name
  }

  /** `os.path.basename(p)`: what follows the last `/`. */
  function Basename(p: Path): string {
    if p == [] || p[|p| - 1] == '/' then [] else Basename(p[..|p| - 1]) + [p[|p| - 1]]
  }

  /** The index of the last `.` in `p`, if any. */
  function LastDot(p: string): (r: Option<nat>)
    ensures r.Some? ==> r.value < |p| && p[r.value] == '.'
  {
    if p == [] then None
    else if p[|p| - 1] == '.' then Some(|p| - 1)
    else LastDot(p[..|p| - 1])
  }

  /** `os.path.splitext(name)[0]` for a name without `/`: cut at the last
      dot unless only dots precede it. */
  function StripExtension(name: string): string {
    match LastDot(name)
    case None => name
    case Some(k) => if exists j | 0 <= j < k :: name[j] != '.' then name[..k] else name
  }

  function HtmlPath(dir: Path, c: Chat): Path {
    PathJoin(dir, ExportBase(c) + ".html")
  }

  function PdfPath(dir: Path, c: Chat): Path {
    PathJoin(dir, ExportBase(c) + ".pdf")
  }

  /** The media directory as the cleanup code computes it: the HTML file's
      base name without extension, plus `_attachments`, in `dir`. */
  function MediaDir(dir: Path, c: Chat): Path {
    PathJoin(dir, StripExtension(Basename(HtmlPath(dir, c))) + "_attachments")
  }

  lemma ExportBaseShape(c: Chat)
    ensures '/' !in ExportBase(c) && ExportBase(c)[0] == 'd'
  {
    var s := Sanitize.SanitizeFilename(ChatLabel(c));
    var d := Decimal(c.id);
    assert '/' !in s by {
      Sanitize.SanitizeIsClean(ChatLabel(c));
      assert Sanitize.NoReserved(s);
    }
    assert '/' !in d by {
      assert IsDigits(d);
    }
    ExportBaseJoin(s, d);
  }

  lemma ExportBaseJoin(s: string, d: string)
    requires '/' !in s && '/' !in d
    ensures var b := "discord_export_" + s + "_" + d; '/' !in b && b[0] == 'd'
  {
  }

  lemma {:induction false} BasenameAfterSlash(x: string, y: string)
    requires x == [] || x[|x| - 1] == '/'
    requires '/' !in y
    ensures Basename(x + y) == y
  {
    if y == [] {
      assert x + y == x;
    } else {
      var p := x + y;
      assert p[..|p| - 1] == x + y[..|y| - 1];
      assert p[|p| - 1] == y[|y| - 1];
      BasenameAfterSlash(x, y[..|y| - 1]);
    }
  }

  lemma {:induction false} LastDotAppend(p: string, t: string)
    requires '.' !in t
    ensures LastDot(p + t) == LastDot(p)
  {
    if t != [] {
      var q := p + t;
      assert q[..|q| - 1] == p + t[..|t| - 1];
      assert q[|q| - 1] == t[|t| - 1];
      LastDotAppend(p, t[..|t| - 1]);
    } else {
      assert p + t == p;
    }
  }

  /** The media directory removed by the cleanup is the sibling
      `<base>_attachments` of the HTML and PDF files. */
  lemma MediaDirIsSibling(dir: Path, c: Chat)
    ensures MediaDir(dir, c) == PathJoin(dir, ExportBase(c) + "_attachments")
  {
    ExportBaseShape(c);
    SiblingOfHtml(dir, ExportBase(c), "_attachments");
  }

  lemma SiblingOfHtml(dir: Path, base: string, suffix: string)
    requires '/' !in base && base != [] && base[0] != '.'
    ensures PathJoin(dir, StripExtension(Basename(PathJoin(dir, base + ".html"))) + suffix)
         == PathJoin(dir, base + suffix)
  {
    BasenameOfJoin(dir, base + ".html");
    StripHtml(base);
  }

  /** A name without `/` joined to a directory has that name as basename. */
  lemma BasenameOfJoin(dir: Path, name: string)
    requires '/' !in name && name != []
    ensures Basename(PathJoin(dir, name)) == name
  {
    if dir == [] || dir[|dir| - 1] == '/' {
      BasenameAfterSlash(dir, name);
    } else {
      assert dir + "/" + name == (dir + "/") + name;
      BasenameAfterSlash(dir + "/", name);
    }
  }

  /** Splitting the extension off `<base>.html` gives back `<base>` when
      `base` does not start with a dot. */
  lemma StripHtml(base: string)
    requires base != [] && base[0] != '.'
    ensures StripExtension(base + ".html") == base
  {
    var name := base + ".html";
    LastDotAppend(base + ".", "html");
    assert base + "." + "html" == name;
    assert LastDot(base + ".") == Some(|base|);
    assert name[0] != '.';
    assert name[..|base|] == base;
  }

  // ---------------------------------------------------------------------
  // One archival
  // ---------------------------------------------------------------------

  /** The temporary stylesheet: not created, created but the write failed
      (the converter runs without it, the file is still removed), or ready. */
  datatype Stylesheet = NoTempFile | UnwrittenTempFile | StylesheetReady

  /** What the outside world did during one archival. */
  datatype ToolRun = ToolRun(
    exportOk: bool,        // exporter found and exited with status 0
    htmlWritten: bool,     // the HTML file exists afterwards
    stylesheet: Stylesheet,
    convertOk: bool,       // converter found and exited with status 0
    pdfWritten: bool,      // the PDF file exists afterwards
    htmlRemoved: bool,     // deleting the HTML file raised no OSError
    mediaDirPresent: bool) // the exporter left a media directory

  /** Externally visible steps, in the order the unit takes them. */
  datatype Step =
    | Export(channelId: nat, output: Path)
    | Convert(input: Path, output: Path, styled: bool)
    | RemoveStylesheet
    | RemoveFile(path: Path)
    | RemoveTree(path: Path)

  predicate Exported(run: ToolRun) {
    run.exportOk && run.htmlWritten
  }

  /** The path `archive_one_channel` returns. */
  function ArchiveResult(dir: Path, c: Chat, run: ToolRun): Option<Path> {
    if Exported(run) && run.convertOk && run.pdfWritten then Some(PdfPath(dir, c)) else None
  }

  /** The steps of one archival, for given HTML, PDF and media paths. */
  function StepsFor(id: nat, html: Path, pdf: Path, media: Path, run: ToolRun): seq<Step> {
    if !Exported(run) then [Export(id, html)]
    else
      [Export(id, html)]
      + [Convert(html, pdf, run.stylesheet == StylesheetReady)]
      + (if run.stylesheet != NoTempFile then [RemoveStylesheet] else [])
      + [RemoveFile(html)]
      + (if run.htmlRemoved && run.mediaDirPresent then [RemoveTree(media)] else [])
  }

  /** The steps `archive_one_channel` takes. */
  function ArchiveSteps(dir: Path, c: Chat, run: ToolRun): seq<Step> {
    StepsFor(c.id, HtmlPath(dir, c), PdfPath(dir, c), MediaDir(dir, c), run)
  }

  /** `archive_one_channel`: export, convert, clean up, answer. */
  method ArchiveOneChannel(dir: Path, c: Chat, run: ToolRun) returns (pdf: Option<Path>, steps: seq<Step>)
    ensures pdf == ArchiveResult(dir, c, run)
    ensures steps == ArchiveSteps(dir, c, run)
  {
    var html := HtmlPath(dir, c);
    var pdfFile := PdfPath(dir, c);
    var media := MediaDir(dir, c);
    var converted;
    converted, steps := RunTools(c.id, html, pdfFile, media, run);
    pdf := if converted then Some(pdfFile) else None;
  }

  /** The exporter, the converter and the cleanup for given paths; the
      answer says whether a PDF came out. */
  method RunTools(id: nat, html: Path, pdfFile: Path, media: Path, run: ToolRun) returns (converted: bool, steps: seq<Step>)
    ensures converted <==> Exported(run) && run.convertOk && run.pdfWritten
    ensures steps == StepsFor(id, html, pdfFile, media, run)
  {
    steps := [Export(id, html)];
    converted := false;
    if !run.exportOk {
      return;
    }
    if !run.htmlWritten {
      return;
    }
    var styled := run.stylesheet == StylesheetReady;
    steps := steps + [Convert(html, pdfFile, styled)];
    if run.convertOk {
      if run.pdfWritten {
        converted := true;
      }
    }
    if run.stylesheet != NoTempFile {
      steps := steps + [RemoveStylesheet];
    }
    assert steps == [Export(id, html)] + [Convert(html, pdfFile, styled)]
                    + (if run.stylesheet != NoTempFile then [RemoveStylesheet] else []);
    steps := steps + [RemoveFile(html)];
    if run.htmlRemoved {
      if run.mediaDirPresent {
        steps := steps + [RemoveTree(media)];
      }
    }
  }

  /** An export failure, or an export that leaves no HTML file, ends the
      archival: nothing is returned and the converter never runs. */
  lemma ExportFailureStops(dir: Path, c: Chat, run: ToolRun)
    requires !run.exportOk || !run.htmlWritten
    ensures ArchiveResult(dir, c, run) == None
    ensures ArchiveSteps(dir, c, run) == [Export(c.id, HtmlPath(dir, c))]
    ensures forall i :: 0 <= i < |ArchiveSteps(dir, c, run)| ==> !ArchiveSteps(dir, c, run)[i].Convert?
  {
  }

  /** After a successful export, the converter runs once, right after the
      exporter; then the temporary stylesheet (when one was created), the
      HTML file and the sibling `<base>_attachments` directory are removed,
      and none of this depends on how the conversion went. */
  lemma CleanupWhateverConversion(dir: Path, c: Chat, run: ToolRun, ok: bool, written: bool)
    requires Exported(run)
    ensures var steps := ArchiveSteps(dir, c, run);
      && steps[1] == Convert(HtmlPath(dir, c), PdfPath(dir, c), run.stylesheet == StylesheetReady)
      && (forall i :: 2 <= i < |steps| ==> !steps[i].Convert? && !steps[i].Export?)
      && (run.stylesheet != NoTempFile <==> RemoveStylesheet in steps)
      && RemoveFile(HtmlPath(dir, c)) in steps
      && (run.htmlRemoved && run.mediaDirPresent
          <==> RemoveTree(PathJoin(dir, ExportBase(c) + "_attachments")) in steps)
    ensures ArchiveSteps(dir, c, run.(convertOk := ok, pdfWritten := written)) == ArchiveSteps(dir, c, run)
  {
    MediaDirIsSibling(dir, c);
    CleanupSteps(c.id, HtmlPath(dir, c), PdfPath(dir, c), MediaDir(dir, c), run, ok, written);
  }

  lemma CleanupSteps(id: nat, html: Path, pdf: Path, media: Path, run: ToolRun, ok: bool, written: bool)
    requires Exported(run)
    ensures var steps := StepsFor(id, html, pdf, media, run);
      && steps[1] == Convert(html, pdf, run.stylesheet == StylesheetReady)
      && (forall i :: 2 <= i < |steps| ==> !steps[i].Convert? && !steps[i].Export?)
      && (run.stylesheet != NoTempFile <==> RemoveStylesheet in steps)
      && RemoveFile(html) in steps
      && (run.htmlRemoved && run.mediaDirPresent <==> RemoveTree(media) in steps)
    ensures StepsFor(id, html, pdf, media, run.(convertOk := ok, pdfWritten := written))
         == StepsFor(id, html, pdf, media, run)
  {
  }

  /** A path is returned exactly when the export, the HTML file, the
      conversion and the PDF file all succeeded; it is the `.pdf` file in
      the same directory as the HTML file, with the HTML file's name up to
      its extension, and never the HTML file itself. */
  lemma ResultIsPdfBesideHtml(dir: Path, c: Chat, run: ToolRun)
    ensures ArchiveResult(dir, c, run).Some? <==> run.exportOk && run.htmlWritten && run.convertOk && run.pdfWritten
    ensures ArchiveResult(dir, c, run).Some? ==>
      && ArchiveResult(dir, c, run).value == PathJoin(dir, StripExtension(Basename(HtmlPath(dir, c))) + ".pdf")
      && Basename(ArchiveResult(dir, c, run).value) == StripExtension(Basename(HtmlPath(dir, c))) + ".pdf"
      && ArchiveResult(dir, c, run).value != HtmlPath(dir, c)
  {
    if ArchiveResult(dir, c, run).Some? {
      assert ArchiveResult(dir, c, run).value == PdfPath(dir, c);
      ExportBaseShape(c);
      PdfBesideHtml(dir, ExportBase(c));
    }
  }

  /** `<dir>/<base>.pdf` is the HTML file's stem with `.pdf`, in the same
      directory, and is a different file from `<dir>/<base>.html`. */
  lemma PdfBesideHtml(dir: Path, base: string)
    requires '/' !in base && base != [] && base[0] != '.'
    ensures var html := PathJoin(dir, base + ".html");
      && PathJoin(dir, base + ".pdf") == PathJoin(dir, StripExtension(Basename(html)) + ".pdf")
      && Basename(PathJoin(dir, base + ".pdf")) == StripExtension(Basename(html)) + ".pdf"
      && PathJoin(dir, base + ".pdf") != html
  {
    var pdf, html := PathJoin(dir, base + ".pdf"), PathJoin(dir, base + ".html");
    SiblingOfHtml(dir, base, ".pdf");
    assert StripExtension(Basename(html)) == base by {
      BasenameOfJoin(dir, base + ".html");
      StripHtml(base);
    }
    assert Basename(pdf) == base + ".pdf" by {
      BasenameOfJoin(dir, base + ".pdf");
    }
    assert Basename(pdf) != Basename(html) by {
      BasenameOfJoin(dir, base + ".html");
      assert |base + ".pdf"| != |base + ".html"|;
    }
  }

  // ---------------------------------------------------------------------
  // The batch
  // ---------------------------------------------------------------------

  /** `chats_to_export`: a selected text channel followed by the threads
      under it that the bot can read; any other selection on its own. */
  function ExportTargets(selection: Chat, guildThreads: seq<Chat>, bot: UserId): (r: seq<Chat>)
    ensures r != [] && r[0] == selection
    ensures forall i :: 1 <= i < |r| ==>
      selection.TextChannel? && r[i].Thread? && r[i].parentId == selection.id && CanRead(r[i], bot)
    ensures selection.TextChannel? ==>
      forall t :: t in guildThreads && t.Thread? && t.parentId == selection.id && CanRead(t, bot) ==> t in r
  {
    if selection.TextChannel? then
      [selection] + Filter((t: Chat) => t.Thread? && t.parentId == selection.id && CanRead(t, bot), guildThreads)
    else [selection]
  }

  /** The threads follow the selection in the order the server lists
      them, and none twice when the server lists none twice. */
  lemma ExportTargetsOrder(selection: Chat, guildThreads: seq<Chat>, bot: UserId)
    ensures var r := ExportTargets(selection, guildThreads, bot);
      forall i, j :: 1 <= i < j < |r| ==> OccursBefore(guildThreads, r[i], r[j])
    ensures Distinct(guildThreads) ==> Distinct(ExportTargets(selection, guildThreads, bot))
  {
    if selection.TextChannel? {
      var p := (t: Chat) => t.Thread? && t.parentId == selection.id && CanRead(t, bot);
      var threads := Filter(p, guildThreads);
      assert ExportTargets(selection, guildThreads, bot) == [selection] + threads;
      FilterKeepsOrder(p, guildThreads);
      SelectionThenThreadsOrder(selection, threads, guildThreads);
      if Distinct(guildThreads) {
        FilterDistinct(p, guildThreads);
        SelectionThenThreadsDistinct(selection, threads);
      }
    }
  }

  lemma SelectionThenThreadsOrder(selection: Chat, threads: seq<Chat>, guildThreads: seq<Chat>)
    requires forall i, j :: 0 <= i < j < |threads| ==> OccursBefore(guildThreads, threads[i], threads[j])
    ensures var r := [selection] + threads;
      forall i, j :: 1 <= i < j < |r| ==> OccursBefore(guildThreads, r[i], r[j])
  {
    var r := [selection] + threads;
    forall i, j | 1 <= i < j < |r| ensures OccursBefore(guildThreads, r[i], r[j]) {
      assert r[i] == threads[i - 1] && r[j] == threads[j - 1];
    }
  }

  lemma SelectionThenThreadsDistinct(selection: Chat, threads: seq<Chat>)
    requires selection.TextChannel? && Distinct(threads)
    requires forall i :: 0 <= i < |threads| ==> threads[i].Thread?
    ensures Distinct([selection] + threads)
  {
    var r := [selection] + threads;
    forall i, j | 0 <= i < j < |r| ensures r[i] != r[j] {
      assert r[j] == threads[j - 1];
      if i > 0 {
        assert r[i] == threads[i - 1];
      }
    }
  }

  /** The paths among `results`, in order: the successes of a batch. */
  function Kept(results: seq<Option<Path>>): (r: seq<Path>)
    ensures |r| <= |results|
  {
    if results == [] then []
    else
      var n := |results| - 1;
      Kept(results[..n]) + match results[n] case Some(p) => [p] case None => []
  }

  /** What each chat's archival returned, in batch order. */
  function Results(dir: Path, chats: seq<Chat>, runs: seq<ToolRun>): (r: seq<Option<Path>>)
    requires |runs| == |chats|
    ensures |r| == |chats|
  {
    seq(|chats|, i requires 0 <= i < |chats| => ArchiveResult(dir, chats[i], runs[i]))
  }

  /** All the steps of a batch: each chat's steps, one chat after another. */
  function BatchSteps(dir: Path, chats: seq<Chat>, runs: seq<ToolRun>): seq<Step>
    requires |runs| == |chats|
  {
    if chats == [] then []
    else
      var n := |chats| - 1;
      BatchSteps(dir, chats[..n], runs[..n]) + ArchiveSteps(dir, chats[n], runs[n])
  }

  /** The loop over `chats_to_export`: archive each chat in turn and keep
      the paths of those that produced a PDF. */
  method ArchiveBatch(dir: Path, chats: seq<Chat>, runs: seq<ToolRun>) returns (pdfs: seq<Path>, steps: seq<Step>)
    requires |runs| == |chats|
    ensures pdfs == Kept(Results(dir, chats, runs))
    ensures steps == BatchSteps(dir, chats, runs)
  {
    pdfs, steps := [], [];
    var i := 0;
    assert chats[..i] == [] && runs[..i] == [];
    while i < |chats|
      invariant 0 <= i <= |chats|
      invariant pdfs == Kept(Results(dir, chats[..i], runs[..i]))
      invariant steps == BatchSteps(dir, chats[..i], runs[..i])
    {
      pdfs, steps := ArchiveNext(dir, chats, runs, i, pdfs, steps);
      i := i + 1;
    }
    assert chats[..i] == chats && runs[..i] == runs;
  }

  /** One pass of the batch loop: chat `i` archived, its path kept when
      there is one, its steps appended. */
  method ArchiveNext(dir: Path, chats: seq<Chat>, runs: seq<ToolRun>, i: nat, pdfs: seq<Path>, steps: seq<Step>)
    returns (pdfs': seq<Path>, steps': seq<Step>)
    requires |runs| == |chats| && i < |chats|
    requires pdfs == Kept(Results(dir, chats[..i], runs[..i]))
    requires steps == BatchSteps(dir, chats[..i], runs[..i])
    ensures pdfs' == Kept(Results(dir, chats[..i + 1], runs[..i + 1]))
    ensures steps' == BatchSteps(dir, chats[..i + 1], runs[..i + 1])
  {
    var pdf, chatSteps := ArchiveOneChannel(dir, chats[i], runs[i]);
    BatchGrows(dir, chats, runs, i, pdf);
    pdfs' := pdfs;
    if pdf.Some? {
      pdfs' := pdfs + [pdf.value];
    }
    steps' := steps + chatSteps;
  }

  /** One more chat adds its own path, if any, and its own steps. */
  lemma BatchGrows(dir: Path, chats: seq<Chat>, runs: seq<ToolRun>, i: nat, pdf: Option<Path>)
    requires |runs| == |chats| && i < |chats|
    requires pdf == ArchiveResult(dir, chats[i], runs[i])
    ensures Kept(Results(dir, chats[..i + 1], runs[..i + 1]))
         == Kept(Results(dir, chats[..i], runs[..i])) + match pdf case Some(p) => [p] case None => []
    ensures BatchSteps(dir, chats[..i + 1], runs[..i + 1])
         == BatchSteps(dir, chats[..i], runs[..i]) + ArchiveSteps(dir, chats[i], runs[i])
  {
    ResultsGrow(dir, chats, runs, i);
    KeptSnoc(Results(dir, chats[..i], runs[..i]), pdf);
    StepsGrow(dir, chats, runs, i);
  }

  lemma StepsGrow(dir: Path, chats: seq<Chat>, runs: seq<ToolRun>, i: nat)
    requires |runs| == |chats| && i < |chats|
    ensures BatchSteps(dir, chats[..i + 1], runs[..i + 1])
         == BatchSteps(dir, chats[..i], runs[..i]) + ArchiveSteps(dir, chats[i], runs[i])
  {
    var c, r := chats[..i + 1], runs[..i + 1];
    assert c[..i] == chats[..i] && r[..i] == runs[..i];
    assert c[i] == chats[i] && r[i] == runs[i];
  }

  lemma ResultsGrow(dir: Path, chats: seq<Chat>, runs: seq<ToolRun>, i: nat)
    requires |runs| == |chats| && i < |chats|
    ensures Results(dir, chats[..i + 1], runs[..i + 1])
         == Results(dir, chats[..i], runs[..i]) + [ArchiveResult(dir, chats[i], runs[i])]
  {
    var all := Results(dir, chats, runs);
    ResultsPrefix(dir, chats, runs, i);
    ResultsPrefix(dir, chats, runs, i + 1);
    assert all[..i + 1] == all[..i] + [all[i]];
  }

  /** The results of a prefix of the batch are that prefix of the results. */
  lemma ResultsPrefix(dir: Path, chats: seq<Chat>, runs: seq<ToolRun>, k: nat)
    requires |runs| == |chats| && k <= |chats|
    ensures Results(dir, chats[..k], runs[..k]) == Results(dir, chats, runs)[..k]
  {
    var part, all := Results(dir, chats[..k], runs[..k]), Results(dir, chats, runs);
    forall j | 0 <= j < k ensures part[j] == all[j] {
      assert chats[..k][j] == chats[j] && runs[..k][j] == runs[j];
    }
  }

  lemma KeptSnoc(results: seq<Option<Path>>, x: Option<Path>)
    ensures Kept(results + [x]) == Kept(results) + match x case Some(p) => [p] case None => []
  {
    assert (results + [x])[..|results|] == results;
  }

  lemma {:induction false} KeptConcat(a: seq<Option<Path>>, b: seq<Option<Path>>)
    ensures Kept(a + b) == Kept(a) + Kept(b)
  {
    if b == [] {
      assert a + b == a;
    } else {
      var n := |b| - 1;
      assert (a + b)[..|a + b| - 1] == a + b[..n];
      KeptConcat(a, b[..n]);
    }
  }

  /** A failed archival does not disturb the rest of the batch: the kept
      paths are those of the batch without the failing chat. */
  lemma BatchSkipsFailure(dir: Path, chats: seq<Chat>, runs: seq<ToolRun>, i: nat)
    requires |runs| == |chats| && i < |chats|
    requires ArchiveResult(dir, chats[i], runs[i]).None?
    ensures Kept(Results(dir, chats, runs))
         == Kept(Results(dir, chats[..i] + chats[i + 1..], runs[..i] + runs[i + 1..]))
  {
    ResultsWithout(dir, chats, runs, i);
    KeptSkipsNone(Results(dir, chats, runs), i);
  }

  /** Leaving a chat out of the batch leaves its result out, and only it. */
  lemma ResultsWithout(dir: Path, chats: seq<Chat>, runs: seq<ToolRun>, i: nat)
    requires |runs| == |chats| && i < |chats|
    ensures Results(dir, chats[..i] + chats[i + 1..], runs[..i] + runs[i + 1..])
         == Results(dir, chats, runs)[..i] + Results(dir, chats, runs)[i + 1..]
  {
    var all := Results(dir, chats, runs);
    var rest := Results(dir, chats[..i] + chats[i + 1..], runs[..i] + runs[i + 1..]);
    forall j | 0 <= j < |rest| ensures rest[j] == (all[..i] + all[i + 1..])[j] {
      if j < i {
        assert (chats[..i] + chats[i + 1..])[j] == chats[j];
        assert (runs[..i] + runs[i + 1..])[j] == runs[j];
      } else {
        assert (chats[..i] + chats[i + 1..])[j] == chats[j + 1];
        assert (runs[..i] + runs[i + 1..])[j] == runs[j + 1];
      }
    }
  }

  lemma KeptSkipsNone(results: seq<Option<Path>>, i: nat)
    requires i < |results| && results[i].None?
    ensures Kept(results) == Kept(results[..i] + results[i + 1..])
  {
    var before, after := results[..i], results[i + 1..];
    var upTo := results[..i + 1];
    assert upTo[..i] == before;
    assert Kept(upTo) == Kept(before);
    assert results == upTo + after;
    KeptConcat(upTo, after);
    KeptConcat(before, after);
  }

  /** Every kept path is the PDF path of a chat of the batch whose
      archival succeeded, and every success is kept. */
  lemma {:induction false} KeptAreSuccesses(results: seq<Option<Path>>)
    ensures forall k :: 0 <= k < |Kept(results)| ==>
      exists i :: 0 <= i < |results| && results[i] == Some(Kept(results)[k])
    ensures forall i :: 0 <= i < |results| && results[i].Some? ==> results[i].value in Kept(results)
  {
    if results != [] {
      var n := |results| - 1;
      KeptAreSuccesses(results[..n]);
      var prefix := Kept(results[..n]);
      var all := Kept(results);
      assert all == prefix + match results[n] case Some(p) => [p] case None => [];
      forall k | 0 <= k < |all|
        ensures exists i :: 0 <= i < |results| && results[i] == Some(all[k])
      {
        if k < |prefix| {
          var i :| 0 <= i < n && results[..n][i] == Some(prefix[k]);
          assert results[i] == Some(all[k]);
        } else {
          assert results[n] == Some(all[k]);
        }
      }
      forall i | 0 <= i < |results| && results[i].Some? ensures results[i].value in all {
        if i < n {
          assert results[..n][i] == results[i];
        }
      }
    } else {
      assert Kept(results) == [];
    }
  }

  /** A batch keeps exactly the PDF paths of the chats whose archival
      succeeded, in batch order. */
  lemma BatchKeepsSuccesses(dir: Path, chats: seq<Chat>, runs: seq<ToolRun>)
    requires |runs| == |chats|
    ensures var kept := Kept(Results(dir, chats, runs));
      && |kept| <= |chats|
      && (forall k :: 0 <= k < |kept| ==>
            exists i :: 0 <= i < |chats| && ArchiveResult(dir, chats[i], runs[i]) == Some(kept[k]))
      && (forall i :: 0 <= i < |chats| && ArchiveResult(dir, chats[i], runs[i]).Some? ==>
            PdfPath(dir, chats[i]) in kept)
  {
    var results := Results(dir, chats, runs);
    KeptAreSuccesses(results);
    forall i | 0 <= i < |chats| && ArchiveResult(dir, chats[i], runs[i]).Some?
      ensures PdfPath(dir, chats[i]) in Kept(results)
    {
      assert results[i] == Some(PdfPath(dir, chats[i]));
    }
  }
}
