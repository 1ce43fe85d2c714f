/** The pdfmake `PDFReporter` (the JavaScript source and its compiled copy
    are the same code): `onBegin` records the base URL and sweeps the
    screenshot directory; `onTestEnd` builds one report document per test
    and names its PDF file. */
module PdfMakeReporter {
  import opened Results
  import opened JsStrings
  import opened JsNumbers
  import opened Paths
  import opened ReportDoc
  import opened DirectoryTree

  /** The `use` options of a configured project. */
  datatype UseOptions = UseOptions(baseUrl: Option<string>)

  /** A project of the run configuration; `use` may be absent. */
  datatype Project = Project(use: Option<UseOptions>)

  /** `config.projects[0].use?.baseURL || ''`; with no project at all the
      property read throws. */
  function BaseUrlOf(projects: seq<Project>): (r: Result<string>)
    ensures r.Err? <==> |projects| == 0
    ensures r.Ok? && projects[0].use.Some? && projects[0].use.value.baseUrl.Some?
            ==> r.value == projects[0].use.value.baseUrl.value
    ensures r.Ok? && (projects[0].use.None? || projects[0].use.value.baseUrl.None?)
            ==> r.value == ""
  {
    if |projects| == 0 then Err("TypeError: cannot read properties of undefined (reading 'use')")
    else
      match projects[0].use
      case None => Ok("")
      case Some(u) =>
        match u.baseUrl
        case None => Ok("")
        case Some(url) => if url == "" then Ok("") else Ok(url)
  }

  /** `onBegin`: the base URL (still the constructor's `''` when reading
      the configuration throws) and the file system after the sweep. */
  method OnBegin(projects: seq<Project>, t: Tree, screenshotBase: Path)
    returns (baseUrl: string, swept: Result<Tree>)
    requires WellFormed(t)
    ensures BaseUrlOf(projects).Ok? ==> baseUrl == BaseUrlOf(projects).value
    ensures BaseUrlOf(projects).Err? ==> baseUrl == "" && swept.Err?
    ensures swept.Ok? && screenshotBase in t ==>
      && screenshotBase in swept.value
      && (forall p :: p in swept.value ==> !Below(screenshotBase, p))
      && (forall p :: p in t && !Below(screenshotBase, p) ==> p in swept.value && swept.value[p] == t[p])
    ensures swept.Ok? && screenshotBase !in t ==> swept.value == t
    ensures BaseUrlOf(projects).Ok? && (screenshotBase !in t || t[screenshotBase] == Directory) ==> swept.Ok?
    ensures screenshotBase in t && t[screenshotBase] == File ==> swept.Err?
    ensures swept.Ok? && screenshotBase in t ==> swept.value == Emptied(t, screenshotBase)
  {
    baseUrl := "";
    var url := BaseUrlOf(projects);
    if url.Err? {
      swept := Err(url.message);
      return;
    }
    baseUrl := url.value;
    swept := ClearDirectory(t, screenshotBase);
  }

  /** What `onTestEnd` reads of a test and its result. */
  datatype TestRun = TestRun(title: string, status: string, duration: Duration, steps: seq<Step>)

  /** The document, the path of the PDF it is written to, and whether the
      missing-screenshots warning was logged. */
  datatype PdfReport = PdfReport(content: seq<Block>, pdfPath: string, warned: bool)

  const TableHeader: seq<string> := ["Step", "Status", "Duration (s)"]
  const TotalLabel: string := "Total Test Duration"

  function StepRow(s: Step): seq<string> {
    [s.title, StatusLabel(s.failed), SecondsFixed2(DefaultNullish(s.duration))]
  }

  /** The step table: a header row, one row per step in order, and the
      total row; the duration cells are `((d ?? 0) / 1000).toFixed(2)`. */
  function StepTable(run: TestRun): (b: Block)
    ensures b.TableBlock? && b.widths == StarWidths
    ensures |b.body| == |run.steps| + 2
    ensures b.body[0] == TableHeader
    ensures forall i :: 0 <= i < |run.steps| ==>
      && |b.body[i + 1]| == 3
      && b.body[i + 1][0] == run.steps[i].title
      && (b.body[i + 1][1] == FailedLabel <==> run.steps[i].failed)
      && b.body[i + 1][2] == SecondsFixed2(DefaultNullish(run.steps[i].duration))
    ensures b.body[|run.steps| + 1] == [TotalLabel, "", SecondsFixed2(DefaultNullish(run.duration))]
  {
    var rows := seq(|run.steps|, i requires 0 <= i < |run.steps| => StepRow(run.steps[i]));
    TableBlock([TableHeader] + rows + [[TotalLabel, "", SecondsFixed2(DefaultNullish(run.duration))]],
               StarWidths)
  }

  /** `f.toLowerCase().endsWith('.png')`. */
  predicate IsPng(f: ShotFile) {
    EndsWithIgnoringCase(f.name, ".png")
  }

  /** A file counts as a PNG exactly when its name ends in '.' followed by
      'p', 'n', 'g' in either case. */
  lemma IsPngByName(f: ShotFile)
    ensures IsPng(f) <==> |f.name| >= 4 && f.name[|f.name| - 4] == '.'
                          && LowerAscii(f.name[|f.name| - 3]) == 'p'
                          && LowerAscii(f.name[|f.name| - 2]) == 'n'
                          && LowerAscii(f.name[|f.name| - 1]) == 'g'
  {
    var n := f.name;
    var ext := ".png";
    assert ext[0] == '.' && ext[1] == 'p' && ext[2] == 'n' && ext[3] == 'g';
    if |n| >= 4 {
      assert LowerAscii(n[|n| - 4]) == '.' <==> n[|n| - 4] == '.';
      if IsPng(f) {
        assert LowerAscii(n[|n| - 4 + 0]) == ext[0];
        assert LowerAscii(n[|n| - 4 + 1]) == ext[1];
        assert LowerAscii(n[|n| - 4 + 2]) == ext[2];
        assert LowerAscii(n[|n| - 4 + 3]) == ext[3];
      }
    }
  }

  /** `path.join(screenshotBaseDir, safeTitle)`. */
  function ScreenshotDir(screenshotBase: string, title: string): string {
    JoinPath(screenshotBase, SafeTitle(title))
  }

  /** A test's screenshot directory lies directly inside the base and is
      named by the test's safe title. */
  lemma ScreenshotDirIsChild(screenshotBase: string, title: string)
    ensures var d := ScreenshotDir(screenshotBase, title);
      && |d| > |screenshotBase| && d[..|screenshotBase|] == screenshotBase && d[|screenshotBase|] == '/'
      && Basename(d) == SafeTitle(title)
  {
    var key := SafeTitle(title);
    assert '/' !in key by {
      assert forall i :: 0 <= i < |key| ==> key[i] != '/';
    }
    BasenameOfJoin(screenshotBase, key);
  }

  /** `${safeTitle}_${timestamp}.pdf` with the timestamp's separators
      replaced. */
  function PdfFileName(title: string, stamp: string): (name: string)
    ensures '/' !in name && ' ' !in name && ':' !in name && ',' !in name
    ensures EndsWith(name, ".pdf")
    ensures |name| == |SafeTitle(title)| + |SanitizeTimestamp(stamp)| + 5
    ensures StartsWith(name, SafeTitle(title) + "_")
    ensures EndsWith(name, SanitizeTimestamp(stamp) + ".pdf")
  {
    var a, b := SafeTitle(title), SanitizeTimestamp(stamp);
    var name := a + "_" + b + ".pdf";
    assert forall i :: 0 <= i < |a| ==> name[i] == a[i];
    assert forall i :: 0 <= i < |b| ==> name[|a| + 1 + i] == b[i];
    assert name[..|a| + 1] == a + "_";
    assert name[|a| + 1..] == b + ".pdf";
    name
  }

  /** Within one run (one timestamp) two tests write the same PDF exactly
      when their safe titles agree. */
  lemma PdfFileNameSameFor(t1: string, t2: string, stamp: string)
    ensures PdfFileName(t1, stamp) == PdfFileName(t2, stamp) <==> SafeTitle(t1) == SafeTitle(t2)
  {
    if PdfFileName(t1, stamp) == PdfFileName(t2, stamp) {
      var n := PdfFileName(t1, stamp);
      var k := |SafeTitle(t1)|;
      assert n[..k + 1] == SafeTitle(t1) + "_" && n[..k + 1] == SafeTitle(t2) + "_";
      assert SafeTitle(t1) == n[..k] == SafeTitle(t2);
    }
  }

  /** `onTestEnd`: the content blocks and the PDF path. `listings` maps
      each existing directory to its entries in the order the report
      takes them (the birth-time sort is not modelled). */
  function OnTestEnd(baseUrl: string, run: TestRun, screenshotBase: string,
                     listings: map<string, seq<ShotFile>>, outputDir: string, stamp: string)
    : (r: Result<PdfReport>)
    ensures var dir := ScreenshotDir(screenshotBase, run.title);
      r.Ok? <==> (dir in listings ==> forall f :: f in listings[dir] && IsPng(f) ==> f.size.Some?)
    ensures r.Ok? ==>
      && |r.value.content| >= 5
      && r.value.content[..4] == HeaderBlocks(baseUrl, run.title, run.status)
      && r.value.content[4] == StepTable(run)
      && r.value.pdfPath == JoinPath(outputDir, PdfFileName(run.title, stamp))
    ensures r.Ok? ==> (r.value.warned <==> ScreenshotDir(screenshotBase, run.title) !in listings)
    ensures r.Ok? && r.value.warned ==> |r.value.content| == 5
    ensures r.Ok? && !r.value.warned ==>
      r.value.content[5..] == ScreenshotBlocks(Filter(listings[ScreenshotDir(screenshotBase, run.title)], IsPng)).value
  {
    var head := HeaderBlocks(baseUrl, run.title, run.status) + [StepTable(run)];
    var dir := ScreenshotDir(screenshotBase, run.title);
    var path := JoinPath(outputDir, PdfFileName(run.title, stamp));
    if dir in listings then
      var pngs := Filter(listings[dir], IsPng);
      assert (forall i :: 0 <= i < |pngs| ==> pngs[i].size.Some?)
         <==> (forall f :: f in listings[dir] && IsPng(f) ==> f.size.Some?);
      match ScreenshotBlocks(pngs)
      case Err(e) => Err(e)
      case Ok(shots) =>
        assert (head + shots)[5..] == shots;
        Ok(PdfReport(head + shots, path, false))
    else
      Ok(PdfReport(head, path, true))
  }

  /** One caption and one 400-wide image per PNG file of the test's
      directory, in listing order; without PNG files (or without the
      directory) the document has exactly one table and no image. */
  lemma OnTestEndImages(baseUrl: string, run: TestRun, screenshotBase: string,
                        listings: map<string, seq<ShotFile>>, outputDir: string, stamp: string)
    requires OnTestEnd(baseUrl, run, screenshotBase, listings, outputDir, stamp).Ok?
    ensures var r := OnTestEnd(baseUrl, run, screenshotBase, listings, outputDir, stamp).value;
      var dir := ScreenshotDir(screenshotBase, run.title);
      var pngs := if dir in listings then Filter(listings[dir], IsPng) else [];
      && |r.content| == 5 + 2 * |pngs|
      && ImageCount(r.content) == |pngs|
      && TableCount(r.content) == 1
      && forall k :: 0 <= k < |pngs| ==>
           && r.content[5 + 2 * k] == TextBlock("Screenshot: " + pngs[k].name, Caption)
           && r.content[6 + 2 * k].ImageBlock?
           && r.content[6 + 2 * k].width == TargetWidth
  {
    var r := OnTestEnd(baseUrl, run, screenshotBase, listings, outputDir, stamp).value;
    var dir := ScreenshotDir(screenshotBase, run.title);
    var pngs := if dir in listings then Filter(listings[dir], IsPng) else [];
    var head := r.content[..5];
    assert r.content == head + r.content[5..];
    assert head == HeaderBlocks(baseUrl, run.title, run.status) + [StepTable(run)];
    assert ImageCount(head) == 0 && TableCount(head) == 1 by {
      var h := HeaderBlocks(baseUrl, run.title, run.status);
      TextOnlyCounts(h);
      CountsAppend(h, [StepTable(run)]);
      assert [StepTable(run)][1..] == [];
    }
    if dir in listings {
      assert ScreenshotBlocks(pngs).Ok?;
      ScreenshotBlockCounts(pngs);
      CountsAppend(head, r.content[5..]);
    } else {
      assert r.content == head;
    }
  }

  /** The PDF lands directly in the output directory under its own name. */
  lemma PdfPathIsInOutputDir(outputDir: string, title: string, stamp: string)
    ensures Basename(JoinPath(outputDir, PdfFileName(title, stamp))) == PdfFileName(title, stamp)
  {
    BasenameOfJoin(outputDir, PdfFileName(title, stamp));
  }

  /** The step durations render as seconds to two decimals: a missing one
      as "0.00", any other as the hundredths of a second nearest to it. */
  lemma StepTableDurations(run: TestRun, i: nat)
    requires i < |run.steps|
    ensures run.steps[i].duration.Missing? ==> StepTable(run).body[i + 1][2] == "0.00"
    ensures run.steps[i].duration.Ms? ==>
      ParseFixed2(StepTable(run).body[i + 1][2]) == Some(Centis(run.steps[i].duration.ms))
  {
    SecondsFixed2Examples();
    if run.steps[i].duration.Ms? {
      SecondsFixed2RoundTrip(run.steps[i].duration.ms);
    }
  }
}
