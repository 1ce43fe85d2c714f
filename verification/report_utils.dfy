/** `generatePdfReport` and `captureAndAttach` of the report utilities: a
    pdfmake document whose table shows raw milliseconds, the screenshots
    selected by name prefix or image extension, and the step screenshot
    names. */
module ReportUtils {
  import opened Results
  import opened JsStrings
  import opened JsNumbers
  import opened Paths
  import opened ReportDoc
  import opened Capture

  /** A step as the test collects it; `status` is one of the two labels. */
  datatype StepResult = StepResult(title: string, status: string, duration: nat)

  /** What `generatePdfReport` reads of the test. */
  datatype TestInfo = TestInfo(title: string, status: string, duration: nat)

  /** The document and the path it is written to. */
  datatype PdfDoc = PdfDoc(content: seq<Block>, filePath: string)

  const TableHeader: seq<string> := ["Step", "Status", "Time Taken (ms)"]
  const TotalLabel: string := "Total Test Duration"

  /** The table: the header, one row per step in order with the duration
      as `String(ms)`, and the total row. */
  function StepTable(info: TestInfo, steps: seq<StepResult>): (b: Block)
    ensures b.TableBlock? && b.widths == StarWidths
    ensures |b.body| == |steps| + 2
    ensures b.body[0] == TableHeader
    ensures forall i :: 0 <= i < |steps| ==>
      && |b.body[i + 1]| == 3
      && b.body[i + 1][0] == steps[i].title
      && b.body[i + 1][1] == steps[i].status
      && AllDigits(b.body[i + 1][2]) && DigitsValue(b.body[i + 1][2]) == steps[i].duration
    ensures |b.body[|steps| + 1]| == 3 && b.body[|steps| + 1][..2] == [TotalLabel, ""]
    ensures AllDigits(b.body[|steps| + 1][2]) && DigitsValue(b.body[|steps| + 1][2]) == info.duration
  {
    var rows := seq(|steps|, i requires 0 <= i < |steps| =>
                      [steps[i].title, steps[i].status, NatToString(steps[i].duration)]);
    forall i | 0 <= i < |steps|
      ensures DigitsValue(rows[i][2]) == steps[i].duration
    {
      NatToStringRoundTrip(steps[i].duration);
    }
    NatToStringRoundTrip(info.duration);
    TableBlock([TableHeader] + rows + [[TotalLabel, "", NatToString(info.duration)]], StarWidths)
  }

  /** `file.startsWith('Step') || /\.(png|jpg|jpeg)$/i.test(file)`. */
  predicate IsReportShot(f: ShotFile) {
    || StartsWith(f.name, "Step")
    || EndsWithIgnoringCase(f.name, ".png")
    || EndsWithIgnoringCase(f.name, ".jpg")
    || EndsWithIgnoringCase(f.name, ".jpeg")
  }

  /** A selected file either starts with "Step" or has one of the three
      image extensions, all of which end in 'g' in either case. */
  lemma ReportShotNames(f: ShotFile)
    ensures StartsWith(f.name, "Step") ==> IsReportShot(f)
    ensures EndsWithIgnoringCase(f.name, ".png") ==> IsReportShot(f)
    ensures IsReportShot(f) && !StartsWith(f.name, "Step") ==>
      |f.name| >= 4 && LowerAscii(f.name[|f.name| - 1]) == 'g'
  {
    var n := f.name;
    if IsReportShot(f) && !StartsWith(n, "Step") {
      if EndsWithIgnoringCase(n, ".png") {
        assert LowerAscii(n[|n| - 4 + 3]) == ".png"[3];
      } else if EndsWithIgnoringCase(n, ".jpg") {
        assert LowerAscii(n[|n| - 4 + 3]) == ".jpg"[3];
      } else {
        assert LowerAscii(n[|n| - 5 + 4]) == ".jpeg"[4];
      }
    }
  }

  /** The listing of the screenshot directory, or nothing when it is
      missing, narrowed to the report's screenshots in listing order. */
  function SelectShots(listing: Option<seq<ShotFile>>): (r: seq<ShotFile>)
    ensures listing.None? ==> r == []
    ensures listing.Some? ==> forall f :: f in r <==> f in listing.value && IsReportShot(f)
  {
    match listing
    case None => []
    case Some(files) => Filter(files, IsReportShot)
  }

  /** `${title.replace(/\s+/g, '_')}.pdf`. */
  function PdfFileName(title: string): (name: string)
    ensures NoSpace(name) && EndsWith(name, ".pdf")
    ensures |name| == |Underscored(title)| + 4 && name[..|name| - 4] == Underscored(title)
  {
    var a := Underscored(title);
    var name := a + ".pdf";
    assert forall i :: 0 <= i < |a| ==> name[i] == a[i];
    assert name[..|a|] == a;
    name
  }

  /** Two titles give the same PDF name exactly when they agree after
      their white-space runs are replaced. */
  lemma PdfFileNameSameFor(a: string, b: string)
    ensures PdfFileName(a) == PdfFileName(b) <==> Underscored(a) == Underscored(b)
  {
    if PdfFileName(a) == PdfFileName(b) {
      var n := PdfFileName(a);
      assert Underscored(a) == n[..|n| - 4] == Underscored(b);
    }
  }

  /** `generatePdfReport`: the header, the table, one caption and image per
      selected screenshot; it fails when a selected file is not an image
      `image-size` can decode. */
  function GeneratePdfReport(info: TestInfo, steps: seq<StepResult>, baseUrl: string,
                             listing: Option<seq<ShotFile>>, outputDir: string)
    : (r: Result<PdfDoc>)
    ensures r.Ok? <==> forall f :: f in SelectShots(listing) ==> f.size.Some?
    ensures r.Ok? ==>
      && |r.value.content| == 5 + 2 * |SelectShots(listing)|
      && r.value.content[..4] == HeaderBlocks(baseUrl, info.title, info.status)
      && r.value.content[4] == StepTable(info, steps)
      && r.value.content[5..] == ScreenshotBlocks(SelectShots(listing)).value
      && r.value.filePath == JoinPath(outputDir, PdfFileName(info.title))
  {
    var head := HeaderBlocks(baseUrl, info.title, info.status) + [StepTable(info, steps)];
    var shots := SelectShots(listing);
    match ScreenshotBlocks(shots)
    case Err(e) => Err(e)
    case Ok(blocks) =>
      assert (head + blocks)[5..] == blocks;
      Ok(PdfDoc(head + blocks, JoinPath(outputDir, PdfFileName(info.title))))
  }

  /** Each selected screenshot adds exactly one image; the document always
      holds one table. */
  lemma GeneratePdfReportCounts(info: TestInfo, steps: seq<StepResult>, baseUrl: string,
                                listing: Option<seq<ShotFile>>, outputDir: string)
    requires GeneratePdfReport(info, steps, baseUrl, listing, outputDir).Ok?
    ensures var c := GeneratePdfReport(info, steps, baseUrl, listing, outputDir).value.content;
      ImageCount(c) == |SelectShots(listing)| && TableCount(c) == 1
  {
    var c := GeneratePdfReport(info, steps, baseUrl, listing, outputDir).value.content;
    var h := HeaderBlocks(baseUrl, info.title, info.status);
    assert c == h + [StepTable(info, steps)] + c[5..];
    TextOnlyCounts(h);
    CountsAppend(h, [StepTable(info, steps)]);
    assert [StepTable(info, steps)][1..] == [];
    ScreenshotBlockCounts(SelectShots(listing));
    CountsAppend(h + [StepTable(info, steps)], c[5..]);
  }

  /** Two listings report their screenshots in the order they are listed:
      the selection of a concatenation is the concatenation of the
      selections. */
  lemma SelectShotsKeepsOrder(a: seq<ShotFile>, b: seq<ShotFile>)
    ensures SelectShots(Some(a + b)) == SelectShots(Some(a)) + SelectShots(Some(b))
  {
    FilterAppend(a, b, IsReportShot);
  }

  /** `${screenshotCounter}_${stepName.replace(/\s+/g, '_')}.png`. */
  function ScreenshotFileName(counter: nat, stepName: string): (name: string)
    ensures NoSpace(name) && EndsWith(name, ".png")
    ensures |name| == |NatToString(counter)| + |Underscored(stepName)| + 5
    ensures StartsWith(name, NatToString(counter) + "_")
    ensures EndsWith(name, Underscored(stepName) + ".png")
  {
    var rest := Underscored(stepName) + ".png";
    var name := CounterName(counter, rest);
    CounterNameNoSpace(counter, rest);
    var k := |NatToString(counter)| + 1;
    assert name[..k] == NatToString(counter) + "_";
    assert name[|name| - 4..] == rest[|rest| - 4..];
    name
  }

  /** A counter name has white space only where its rest has. */
  lemma CounterNameNoSpace(counter: nat, rest: string)
    requires NoSpace(rest)
    ensures NoSpace(CounterName(counter, rest))
  {
    var d := NatToString(counter);
    var name := CounterName(counter, rest);
    assert forall i :: 0 <= i < |rest| ==> name[|d| + 1 + i] == rest[i];
    assert forall i :: 0 <= i < |d| ==> name[i] == d[i];
  }

  /** Names from calls with different counters differ. */
  lemma ScreenshotFileNamesDistinct(a: nat, sa: string, b: nat, sb: string)
    requires a != b
    ensures ScreenshotFileName(a, sa) != ScreenshotFileName(b, sb)
  {
    CounterNameInjective(a, Underscored(sa) + ".png", b, Underscored(sb) + ".png");
  }

  /** `Step: ${stepName} - ${timestamp}` with the timestamp sanitised. */
  function AttachmentName(stepName: string, stamp: string): (name: string)
    ensures StartsWith(name, "Step: " + stepName + " - ")
    ensures EndsWith(name, SanitizeTimestamp(stamp))
    ensures |name| == 9 + |stepName| + |SanitizeTimestamp(stamp)|
  {
    "Step: " + stepName + " - " + SanitizeTimestamp(stamp)
  }

  /** `captureAndAttach`: bumps the counter, then names the screenshot with
      the new value and the attachment with the step and the timestamp. */
  method CaptureAndAttach(c: Counter, stepName: string, stamp: string)
    returns (fileName: string, attachment: string)
    modifies c
    ensures c.value == old(c.value) + 1
    ensures fileName == ScreenshotFileName(c.value, stepName)
    ensures attachment == AttachmentName(stepName, stamp)
  {
    var n := c.Next();
    fileName := ScreenshotFileName(n, stepName);
    attachment := AttachmentName(stepName, stamp);
  }
}
