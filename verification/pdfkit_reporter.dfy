/** The pdfkit `PdfReporter`: `onTestEnd` appends one record per test
    (step rows, upper-cased status, the screenshots whose names contain
    the test's key) and `onEnd` draws all records into one document, as a
    sequence of drawing operations. */
module PdfKitReporter {
  import opened Results
  import opened JsStrings
  import opened JsNumbers
  import opened Paths
  import opened ReportDoc

  /** One row of a record's step table. */
  datatype StepRow = StepRow(step: string, status: string, time: string)

  /** What `onTestEnd` keeps of a test. */
  datatype CaseRecord = CaseRecord(
    testCase: string,
    overallStatus: string,
    totalDuration: string,
    steps: seq<StepRow>,
    screenshots: seq<string>)

  /** `((d || 0) / 1000).toFixed(2) + ' s'`. */
  function SecondsLabel(d: Duration): (r: string)
    ensures |r| >= 6 && r[|r| - 2..] == " s"
    ensures ParseFixed2(r[..|r| - 2]) == Some(Centis(if d.Ms? then d.ms else 0))
  {
    var x := DefaultFalsy(d);
    SecondsFixed2RoundTrip(x.n);
    var r := SecondsFixed2(x) + " s";
    assert r[..|r| - 2] == SecondsFixed2(x);
    r
  }

  /** `result.steps?.map(...) || []`. */
  function CollectSteps(steps: Option<seq<Step>>): (rows: seq<StepRow>)
    ensures steps.None? ==> rows == []
    ensures steps.Some? ==> |rows| == |steps.value|
    ensures steps.Some? ==> forall i :: 0 <= i < |steps.value| ==>
      && rows[i].step == steps.value[i].title
      && (rows[i].status == FailedLabel <==> steps.value[i].failed)
      && rows[i].time == SecondsLabel(steps.value[i].duration)
  {
    match steps
    case None => []
    case Some(ss) =>
      seq(|ss|, i requires 0 <= i < |ss| => StepRow(ss[i].title, StatusLabel(ss[i].failed), SecondsLabel(ss[i].duration)))
  }

  /** `f.includes(safeTitle) && f.toLowerCase().endsWith('.png')`. */
  predicate IsShotOf(safeTitle: string, f: string) {
    Contains(f, safeTitle) && EndsWithIgnoringCase(f, ".png")
  }

  /** The screenshots of a test: the directory's entries that belong to it,
      joined to the directory, in listing order; none when the directory
      is missing. */
  function CollectShots(dir: string, listing: Option<seq<string>>, title: string): (paths: seq<string>)
    ensures listing.None? ==> paths == []
    ensures listing.Some? ==>
      var chosen := Filter(listing.value, f => IsShotOf(SafeTitle(title), f));
      && |paths| == |chosen|
      && forall i :: 0 <= i < |chosen| ==> paths[i] == JoinPath(dir, chosen[i])
  {
    match listing
    case None => []
    case Some(files) =>
      var chosen := Filter(files, f => IsShotOf(SafeTitle(title), f));
      seq(|chosen|, i requires 0 <= i < |chosen| => JoinPath(dir, chosen[i]))
  }

  /** A selected path names its file: the base name is a listing entry
      whose name contains the test's key and ends in ".png". */
  lemma CollectShotsNamesMatch(dir: string, files: seq<string>, title: string, i: nat)
    requires forall j :: 0 <= j < |files| ==> '/' !in files[j]
    requires i < |CollectShots(dir, Some(files), title)|
    ensures var b := Basename(CollectShots(dir, Some(files), title)[i]);
      b in files && Contains(b, SafeTitle(title)) && EndsWithIgnoringCase(b, ".png")
  {
    var chosen := Filter(files, f => IsShotOf(SafeTitle(title), f));
    assert chosen[i] in files;
    BasenameOfJoin(dir, chosen[i]);
  }

  /** `onTestEnd`: appends exactly one record and keeps the earlier ones. */
  function OnTestEnd(records: seq<CaseRecord>, title: string, status: string, duration: Duration,
                     steps: Option<seq<Step>>, screenshotDir: string, listing: Option<seq<string>>)
    : (r: seq<CaseRecord>)
    ensures |r| == |records| + 1 && r[..|records|] == records
    ensures r[|records|].testCase == title
    ensures r[|records|].overallStatus == UpperCase(status)
    ensures r[|records|].totalDuration == SecondsLabel(duration)
    ensures r[|records|].steps == CollectSteps(steps)
    ensures r[|records|].screenshots == CollectShots(screenshotDir, listing, title)
  {
    records + [CaseRecord(title, UpperCase(status), SecondsLabel(duration),
                          CollectSteps(steps), CollectShots(screenshotDir, listing, title))]
  }

  /** Records accumulate in call order. */
  lemma OnTestEndKeepsOrder(records: seq<CaseRecord>, title: string, status: string, duration: Duration,
                            steps: Option<seq<Step>>, dir: string, listing: Option<seq<string>>,
                            title2: string, status2: string, duration2: Duration,
                            steps2: Option<seq<Step>>, listing2: Option<seq<string>>)
    ensures var r := OnTestEnd(OnTestEnd(records, title, status, duration, steps, dir, listing),
                               title2, status2, duration2, steps2, dir, listing2);
      |r| == |records| + 2 && r[..|records|] == records
      && r[|records|].testCase == title && r[|records| + 1].testCase == title2
  {
    var r1 := OnTestEnd(records, title, status, duration, steps, dir, listing);
    assert r1[..|records|] == records;
  }

  // ---------------------------------------------------------------------
  // onEnd: drawing operations

  datatype TextKind = Body | Centered | Underlined

  /** The pdfkit calls `onEnd` makes, in order. A cell is the stroked
      rectangle of `drawRow` and the text placed inside it. */
  datatype Op =
    | Text(text: string, fontSize: nat, kind: TextKind)
    | MoveDown(lines: real)
    | Cell(x: int, y: int, width: int, height: int,
           text: string, textX: int, textY: int, textWidth: int, bold: bool)
    | Image(path: string, width: int)
    | AddPage

  const StartX: int := 50
  const RowHeight: int := 25
  const ColWidths: seq<int> := [250, 100, 120]
  const HeaderTexts: seq<string> := ["Step", "Status", "Time"]

  /** The sum of the first `i` column widths. */
  function SumPrefix(ws: seq<int>, i: nat): int
    requires i <= |ws|
  {
    if i == 0 then 0 else ws[0] + SumPrefix(ws[1..], i - 1)
  }

  /** One cell of `drawRow`: the stroked rectangle at (x, y), the text
      inset 5 to the right and 8 down, 10 narrower than the column. */
  function CellAt(x: int, y: int, w: int, text: string, bold: bool): Op {
    Cell(x, y, w, RowHeight, text, x + 5, y + 8, w - 10, bold)
  }

  /** The cells of one row from `x` on, each starting where the previous
      one ends. */
  function CellsFrom(x: int, y: int, texts: seq<string>, ws: seq<int>, bold: bool): (ops: seq<Op>)
    requires |texts| == |ws|
    ensures |ops| == |texts|
    ensures forall i :: 0 <= i < |texts| ==> ops[i] == CellAt(x + SumPrefix(ws, i), y, ws[i], texts[i], bold)
    decreases |texts|
  {
    if |texts| == 0 then []
    else [CellAt(x, y, ws[0], texts[0], bold)] + CellsFrom(x + ws[0], y, texts[1..], ws[1..], bold)
  }

  function RowTexts(row: Option<StepRow>): seq<string> {
    match row
    case None => HeaderTexts
    case Some(s) => [s.step, s.status, s.time]
  }

  /** `drawRow(y, step, isHeader)`: three cells side by side at height y. */
  function DrawRow(y: int, row: Option<StepRow>, isHeader: bool): (ops: seq<Op>)
    ensures |ops| == 3
    ensures ops[0] == CellAt(50, y, 250, RowTexts(row)[0], isHeader)
    ensures ops[1] == CellAt(300, y, 100, RowTexts(row)[1], isHeader)
    ensures ops[2] == CellAt(400, y, 120, RowTexts(row)[2], isHeader)
  {
    var ops := CellsFrom(StartX, y, RowTexts(row), ColWidths, isHeader);
    assert SumPrefix(ColWidths, 1) == 250 && SumPrefix(ColWidths, 2) == 350 by {
      assert ColWidths[1..] == [100, 120] && ColWidths[1..][1..] == [120];
    }
    ops
  }

  /** The header row at the table top and step i's row 25·(i+1) below it,
      one sequence of cells per row. */
  function DrawTable(top: int, steps: seq<StepRow>): (rows: seq<seq<Op>>)
    ensures |rows| == |steps| + 1
    ensures rows[0] == DrawRow(top, None, true)
    ensures forall i :: 0 <= i < |steps| ==>
      rows[i + 1] == DrawRow(top + RowHeight * (i + 1), Some(steps[i]), false)
  {
    [DrawRow(top, None, true)]
      + seq(|steps|, i requires 0 <= i < |steps| => DrawRow(top + RowHeight * (i + 1), Some(steps[i]), false))
  }

  /** Every row of the table lies one row height below the previous one,
      with its cells in the same columns, so rows never overlap. */
  lemma TableRowsStacked(top: int, steps: seq<StepRow>, i: nat, k: nat)
    requires i < |steps| && k < 3
    ensures |DrawTable(top, steps)[i]| == 3 && |DrawTable(top, steps)[i + 1]| == 3
    ensures DrawTable(top, steps)[i][k].Cell? && DrawTable(top, steps)[i + 1][k].Cell?
    ensures DrawTable(top, steps)[i + 1][k].y == DrawTable(top, steps)[i][k].y + RowHeight
    ensures DrawTable(top, steps)[i + 1][k].x == DrawTable(top, steps)[i][k].x
    ensures DrawTable(top, steps)[i + 1][k].width == DrawTable(top, steps)[i][k].width
  {
    var below := TableRow(top, steps, i + 1);
    var above := TableRow(top, steps, i);
    RowCellPlace(top + RowHeight * (i + 1), Some(steps[i]), false, k);
    if i == 0 {
      RowCellPlace(top, None, true, k);
    } else {
      RowCellPlace(top + RowHeight * i, Some(steps[i - 1]), false, k);
    }
  }

  /** Row i of the table: the header at the top, step i-1 below it. */
  lemma TableRow(top: int, steps: seq<StepRow>, i: nat) returns (row: seq<Op>)
    requires i <= |steps|
    ensures row == DrawTable(top, steps)[i]
    ensures i == 0 ==> row == DrawRow(top, None, true)
    ensures i > 0 ==> row == DrawRow(top + RowHeight * i, Some(steps[i - 1]), false)
  {
    row := DrawTable(top, steps)[i];
  }

  /** Cell k of a row drawn at height y sits at y, in column k. */
  lemma RowCellPlace(y: int, row: Option<StepRow>, isHeader: bool, k: nat)
    requires k < 3
    ensures DrawRow(y, row, isHeader)[k].y == y
    ensures DrawRow(y, row, isHeader)[k].x == StartX + SumPrefix(ColWidths, k)
    ensures DrawRow(y, row, isHeader)[k].width == ColWidths[k]
  {
    assert SumPrefix(ColWidths, 1) == 250 && SumPrefix(ColWidths, 2) == 350 by {
      assert ColWidths[1..] == [100, 120] && ColWidths[1..][1..] == [120];
    }
  }

  /** The drawing operations of the rows, row after row. */
  function Flatten(rows: seq<seq<Op>>): seq<Op>
    decreases |rows|
  {
    if |rows| == 0 then [] else rows[0] + Flatten(rows[1..])
  }

  /** The `n` operations of `ops` from position `off` on. */
  function Stretch(ops: seq<Op>, off: nat, n: nat): seq<Op>
    requires off + n <= |ops|
  {
    ops[off..off + n]
  }

  /** `c` occurs in `ops` starting at position `off`. */
  predicate HasStretch(ops: seq<Op>, off: nat, c: seq<Op>) {
    off + |c| <= |ops| && Stretch(ops, off, |c|) == c
  }

  /** What one screenshot adds when its file exists: a new page and its
      caption, then the image 400 wide, or a warning when pdfkit cannot
      embed it. */
  function ShotOp(p: string, existing: set<string>, embeddable: set<string>): (ops: seq<Op>)
    ensures p !in existing ==> ops == []
    ensures p in existing ==>
      && |ops| >= 3 && ops[0] == AddPage && ops[1] == Text("Screenshot: " + Basename(p), 12, Body)
      && (p in embeddable <==> ops[2] == Image(p, TargetWidth))
    ensures forall i :: 0 <= i < |ops| && ops[i].Image? ==>
      ops[i].path == p && p in existing && p in embeddable
    ensures |ops| > 0 ==> !ops[|ops| - 1].AddPage?
  {
    if p !in existing then []
    else [AddPage, Text("Screenshot: " + Basename(p), 12, Body)]
         + (if p in embeddable then [Image(p, TargetWidth), MoveDown(1.0)]
            else [Text("\U{26A0}\U{FE0F} Failed to add screenshot: " + p, 12, Body)])
  }

  /** The screenshots of a record in order: only files that exist and can
      be embedded are drawn as images, and the operations never end on a
      page break. */
  function ShotOps(paths: seq<string>, existing: set<string>, embeddable: set<string>): (ops: seq<Op>)
    ensures paths == [] ==> ops == []
    ensures forall i :: 0 <= i < |ops| && ops[i].Image? ==>
      ops[i].path in paths && ops[i].path in existing && ops[i].path in embeddable
    ensures |ops| > 0 ==> !ops[|ops| - 1].AddPage?
    decreases |paths|
  {
    if |paths| == 0 then []
    else
      var head := ShotOp(paths[0], existing, embeddable);
      var rest := ShotOps(paths[1..], existing, embeddable);
      var ops := head + rest;
      forall i | 0 <= i < |ops| && ops[i].Image?
        ensures ops[i].path in paths && ops[i].path in existing && ops[i].path in embeddable
      {
        if i < |head| {
          assert ops[i] == head[i];
        } else {
          assert ops[i] == rest[i - |head|];
          assert ops[i].path in paths[1..];
        }
      }
      assert |rest| == 0 && |head| > 0 ==> ops[|ops| - 1] == head[|head| - 1];
      assert |rest| > 0 ==> ops[|ops| - 1] == rest[|rest| - 1];
      ops
  }

  /** The operations for one record; all but the last record end with a
      page break. */
  function CaseOps(rec: CaseRecord, top: int, existing: set<string>, embeddable: set<string>,
                   isLast: bool): (ops: seq<Op>)
    ensures |ops| > 4
    ensures ops[0] == Text("Test Case: " + rec.testCase, 14, Underlined)
    ensures ops[1] == Text("Overall Status: " + rec.overallStatus, 12, Body)
    ensures ops[2] == Text("Total Duration: " + rec.totalDuration, 12, Body)
    ensures ops[3] == MoveDown(0.5)
    ensures |ops| == TableEnd(rec) + 1 + |ShotOps(rec.screenshots, existing, embeddable)| + (if isLast then 0 else 1)
    ensures HasStretch(ops, 4, Flatten(DrawTable(top, rec.steps)))
    ensures ops[TableEnd(rec)] == MoveDown(2.0)
    ensures HasStretch(ops, TableEnd(rec) + 1, ShotOps(rec.screenshots, existing, embeddable))
    ensures ops[|ops| - 1].AddPage? <==> !isLast
  {
    var head := CaseHead(rec);
    var table := Flatten(DrawTable(top, rec.steps));
    var shots := ShotOps(rec.screenshots, existing, embeddable);
    TableLength(top, rec.steps);
    var ops := head + table + [MoveDown(2.0)] + shots + (if isLast then [] else [AddPage]);
    CaseOpsPieces(head, table, shots, ops, isLast);
    ops
  }

  /** The lines above a record's step table: its title, status and
      duration, then half a line of space. */
  function CaseHead(rec: CaseRecord): (head: seq<Op>)
    ensures |head| == 4
  {
    [ Text("Test Case: " + rec.testCase, 14, Underlined),
      Text("Overall Status: " + rec.overallStatus, 12, Body),
      Text("Total Duration: " + rec.totalDuration, 12, Body),
      MoveDown(0.5) ]
  }

  /** Where the step table of a record ends: after the four heading
      operations and three cells per row, the header row included. */
  function TableEnd(rec: CaseRecord): nat {
    4 + 3 * (|rec.steps| + 1)
  }

  /** The pieces of a record's operations sit where `CaseOps` says. */
  lemma CaseOpsPieces(head: seq<Op>, table: seq<Op>, shots: seq<Op>, ops: seq<Op>, isLast: bool)
    requires |head| == 4
    requires |shots| > 0 ==> !shots[|shots| - 1].AddPage?
    requires ops == head + table + [MoveDown(2.0)] + shots + (if isLast then [] else [AddPage])
    ensures ops[0] == head[0] && ops[1] == head[1] && ops[2] == head[2] && ops[3] == head[3]
    ensures |ops| == |head| + |table| + 1 + |shots| + (if isLast then 0 else 1)
    ensures HasStretch(ops, 4, table)
    ensures ops[|head| + |table|] == MoveDown(2.0)
    ensures HasStretch(ops, |head| + |table| + 1, shots)
    ensures ops[|ops| - 1].AddPage? <==> !isLast
  {
    var body := head + table + [MoveDown(2.0)] + shots;
    var t := |head| + |table|;
    assert ops[..|body|] == body;
    assert body[4..t] == table;
    assert body[t + 1..] == shots;
    assert body[|body| - 1] != AddPage;
  }

  function CasesFrom(records: seq<CaseRecord>, tops: seq<int>, k: nat,
                     existing: set<string>, embeddable: set<string>): (ops: seq<Op>)
    requires |tops| == |records| && k <= |records|
    ensures k == |records| <==> ops == []
    ensures k < |records| ==> ops[0] == Text("Test Case: " + records[k].testCase, 14, Underlined)
    ensures k < |records| ==> !ops[|ops| - 1].AddPage?
    decreases |records| - k
  {
    if k == |records| then []
    else CaseOps(records[k], tops[k], existing, embeddable, k == |records| - 1)
         + CasesFrom(records, tops, k + 1, existing, embeddable)
  }

  /** `onEnd`: the title, then every record in order. `tops[i]` is where
      pdfkit's cursor stands when record i's table starts. */
  function OnEnd(records: seq<CaseRecord>, tops: seq<int>, existing: set<string>, embeddable: set<string>)
    : (ops: seq<Op>)
    requires |tops| == |records|
    ensures |ops| >= 2 && ops[..2] == [Text("Playwright Test Execution Report", 18, Centered), MoveDown(1.5)]
    ensures |records| > 0 ==> |ops| > 2 && ops[2] == Text("Test Case: " + records[0].testCase, 14, Underlined)
    ensures !ops[|ops| - 1].AddPage?
  {
    [Text("Playwright Test Execution Report", 18, Centered), MoveDown(1.5)]
    + CasesFrom(records, tops, 0, existing, embeddable)
  }

  // ---------------------------------------------------------------------
  // What the drawing contains

  /** The images an operation list draws, in order. */
  function ImagePaths(ops: seq<Op>): seq<string>
    decreases |ops|
  {
    if |ops| == 0 then []
    else (if ops[0].Image? then [ops[0].path] else []) + ImagePaths(ops[1..])
  }

  /** The underlined lines an operation list writes, in order. */
  function Headings(ops: seq<Op>): seq<string>
    decreases |ops|
  {
    if |ops| == 0 then []
    else (if ops[0].Text? && ops[0].kind == Underlined then [ops[0].text] else []) + Headings(ops[1..])
  }

  /** An operation that is neither an image nor an underlined line. */
  predicate Unmarked(op: Op) {
    !op.Image? && !(op.Text? && op.kind == Underlined)
  }

  lemma {:induction false} MarksAppend(a: seq<Op>, b: seq<Op>)
    ensures ImagePaths(a + b) == ImagePaths(a) + ImagePaths(b)
    ensures Headings(a + b) == Headings(a) + Headings(b)
    decreases |a|
  {
    if |a| > 0 {
      assert (a + b)[1..] == a[1..] + b;
      MarksAppend(a[1..], b);
    } else {
      assert a + b == b;
    }
  }

  lemma {:induction false} UnmarkedHasNoMarks(ops: seq<Op>)
    requires forall i :: 0 <= i < |ops| ==> Unmarked(ops[i])
    ensures ImagePaths(ops) == [] && Headings(ops) == []
    decreases |ops|
  {
    if |ops| > 0 {
      UnmarkedHasNoMarks(ops[1..]);
    }
  }

  /** The paths, in order, of the screenshots that exist and that pdfkit
      can embed. */
  function Embedded(paths: seq<string>, existing: set<string>, embeddable: set<string>): seq<string>
    decreases |paths|
  {
    if |paths| == 0 then []
    else (if paths[0] in existing && paths[0] in embeddable then [paths[0]] else [])
         + Embedded(paths[1..], existing, embeddable)
  }

  /** One screenshot draws its own image exactly when its file exists and
      can be embedded, and writes no heading. */
  lemma ShotOpMarks(p: string, existing: set<string>, embeddable: set<string>)
    ensures ImagePaths(ShotOp(p, existing, embeddable))
         == if p in existing && p in embeddable then [p] else []
    ensures Headings(ShotOp(p, existing, embeddable)) == []
  {
    var ops := ShotOp(p, existing, embeddable);
    if p in existing {
      var intro := [AddPage, Text("Screenshot: " + Basename(p), 12, Body)];
      UnmarkedHasNoMarks(intro);
      var tail := ops[2..];
      assert ops == intro + tail;
      MarksAppend(intro, tail);
      if p in embeddable {
        assert tail == [Image(p, TargetWidth)] + [MoveDown(1.0)];
        UnmarkedHasNoMarks([MoveDown(1.0)]);
        assert [Image(p, TargetWidth)][1..] == [];
        MarksAppend([Image(p, TargetWidth)], [MoveDown(1.0)]);
      } else {
        UnmarkedHasNoMarks(tail);
      }
    }
  }

  /** The screenshots draw exactly the images of the files that exist and
      can be embedded, in the order given, and write no heading. */
  lemma {:induction false} ShotOpsMarks(paths: seq<string>, existing: set<string>, embeddable: set<string>)
    ensures ImagePaths(ShotOps(paths, existing, embeddable)) == Embedded(paths, existing, embeddable)
    ensures Headings(ShotOps(paths, existing, embeddable)) == []
    decreases |paths|
  {
    if |paths| > 0 {
      var head := ShotOp(paths[0], existing, embeddable);
      var rest := ShotOps(paths[1..], existing, embeddable);
      assert ShotOps(paths, existing, embeddable) == head + rest;
      ShotOpMarks(paths[0], existing, embeddable);
      ShotOpsMarks(paths[1..], existing, embeddable);
      MarksAppend(head, rest);
    }
  }

  /** Rows of three operations flatten to three operations per row. */
  lemma {:induction false} FlattenLength(rows: seq<seq<Op>>)
    requires forall r :: 0 <= r < |rows| ==> |rows[r]| == 3
    ensures |Flatten(rows)| == 3 * |rows|
    decreases |rows|
  {
    if |rows| > 0 {
      FlattenLength(rows[1..]);
    }
  }

  /** Rows of cells draw no image and write no heading. */
  lemma {:induction false} CellRowsUnmarked(rows: seq<seq<Op>>)
    requires forall r :: 0 <= r < |rows| ==> forall i :: 0 <= i < |rows[r]| ==> rows[r][i].Cell?
    ensures ImagePaths(Flatten(rows)) == [] && Headings(Flatten(rows)) == []
    decreases |rows|
  {
    if |rows| > 0 {
      UnmarkedHasNoMarks(rows[0]);
      CellRowsUnmarked(rows[1..]);
      MarksAppend(rows[0], Flatten(rows[1..]));
    }
  }

  /** The step table has three operations per row, header row included. */
  lemma TableLength(top: int, steps: seq<StepRow>)
    ensures |Flatten(DrawTable(top, steps))| == 3 * (|steps| + 1)
  {
    var rows: seq<seq<Op>> := DrawTable(top, steps);
    forall r | 0 <= r < |rows|
      ensures |rows[r]| == 3
    {
    }
    FlattenLength(rows);
  }

  /** The step table draws no image and writes no heading. */
  lemma TableHasNoMarks(top: int, steps: seq<StepRow>)
    ensures ImagePaths(Flatten(DrawTable(top, steps))) == []
    ensures Headings(Flatten(DrawTable(top, steps))) == []
  {
    var rows: seq<seq<Op>> := DrawTable(top, steps);
    forall r | 0 <= r < |rows|
      ensures forall i :: 0 <= i < |rows[r]| ==> rows[r][i].Cell?
    {
    }
    CellRowsUnmarked(rows);
  }

  /** Appending a piece with no marks keeps the marks. */
  lemma DropFree(a: seq<Op>, b: seq<Op>)
    requires ImagePaths(b) == [] && Headings(b) == []
    ensures ImagePaths(a + b) == ImagePaths(a) && Headings(a + b) == Headings(a)
  {
    MarksAppend(a, b);
  }

  /** The heading lines of a record underline its title only. */
  lemma CaseHeadMarks(rec: CaseRecord)
    ensures Headings(CaseHead(rec)) == ["Test Case: " + rec.testCase]
    ensures ImagePaths(CaseHead(rec)) == []
  {
    var head := CaseHead(rec);
    UnmarkedHasNoMarks(head[1..]);
  }

  /** The marks of a record's five pieces when only the heading lines and
      the screenshots carry any. */
  lemma MarksOfPieces(head: seq<Op>, table: seq<Op>, shots: seq<Op>, tail: seq<Op>)
    requires ImagePaths(head) == []
    requires ImagePaths(table) == [] && Headings(table) == []
    requires Headings(shots) == []
    requires ImagePaths(tail) == [] && Headings(tail) == []
    ensures Headings(head + table + [MoveDown(2.0)] + shots + tail) == Headings(head)
    ensures ImagePaths(head + table + [MoveDown(2.0)] + shots + tail) == ImagePaths(shots)
  {
    var s1 := head + table;
    var s2 := s1 + [MoveDown(2.0)];
    var s3 := s2 + shots;
    DropFree(head, table);
    UnmarkedHasNoMarks([MoveDown(2.0)]);
    DropFree(s1, [MoveDown(2.0)]);
    MarksAppend(s2, shots);
    DropFree(s3, tail);
  }

  /** A record writes exactly one heading, its own, and draws exactly the
      images of its screenshots that exist and can be embedded, in order. */
  lemma CaseOpsMarks(rec: CaseRecord, top: int, existing: set<string>, embeddable: set<string>, isLast: bool)
    ensures Headings(CaseOps(rec, top, existing, embeddable, isLast)) == ["Test Case: " + rec.testCase]
    ensures ImagePaths(CaseOps(rec, top, existing, embeddable, isLast)) == Embedded(rec.screenshots, existing, embeddable)
  {
    var head := CaseHead(rec);
    var table := Flatten(DrawTable(top, rec.steps));
    var shots := ShotOps(rec.screenshots, existing, embeddable);
    var tail: seq<Op> := if isLast then [] else [AddPage];
    assert CaseOps(rec, top, existing, embeddable, isLast) == head + table + [MoveDown(2.0)] + shots + tail;
    CaseHeadMarks(rec);
    TableHasNoMarks(top, rec.steps);
    ShotOpsMarks(rec.screenshots, existing, embeddable);
    UnmarkedHasNoMarks(tail);
    MarksOfPieces(head, table, shots, tail);
  }

  /** The `Test Case:` headings of records, in record order. */
  function RecordHeadings(records: seq<CaseRecord>): (r: seq<string>)
    ensures |r| == |records|
  {
    seq(|records|, i requires 0 <= i < |records| => "Test Case: " + records[i].testCase)
  }

  /** The images of records, record after record. */
  function RecordShots(records: seq<CaseRecord>, existing: set<string>, embeddable: set<string>): seq<string>
    decreases |records|
  {
    if |records| == 0 then []
    else Embedded(records[0].screenshots, existing, embeddable) + RecordShots(records[1..], existing, embeddable)
  }

  /** The records from k on write their headings and draw their images in
      record order, and nothing else is underlined or drawn as an image. */
  lemma {:induction false} CasesFromMarks(records: seq<CaseRecord>, tops: seq<int>, k: nat,
                                          existing: set<string>, embeddable: set<string>)
    requires |tops| == |records| && k <= |records|
    ensures Headings(CasesFrom(records, tops, k, existing, embeddable)) == RecordHeadings(records[k..])
    ensures ImagePaths(CasesFrom(records, tops, k, existing, embeddable)) == RecordShots(records[k..], existing, embeddable)
    decreases |records| - k
  {
    if k < |records| {
      var isLast := k == |records| - 1;
      CasesFromMarks(records, tops, k + 1, existing, embeddable);
      CaseOpsMarks(records[k], tops[k], existing, embeddable, isLast);
      MarksAppend(CaseOps(records[k], tops[k], existing, embeddable, isLast),
                  CasesFrom(records, tops, k + 1, existing, embeddable));
      RecordMarksFrom(records, k, existing, embeddable);
    } else {
      assert RecordHeadings(records[k..]) == [];
    }
  }

  /** The headings and images of the records from k on: record k's, then
      those of the records after it. */
  lemma RecordMarksFrom(records: seq<CaseRecord>, k: nat, existing: set<string>, embeddable: set<string>)
    requires k < |records|
    ensures RecordHeadings(records[k..]) == ["Test Case: " + records[k].testCase] + RecordHeadings(records[k + 1..])
    ensures RecordShots(records[k..], existing, embeddable)
         == Embedded(records[k].screenshots, existing, embeddable) + RecordShots(records[k + 1..], existing, embeddable)
  {
    assert records[k..][1..] == records[k + 1..];
  }

  /** The report writes one heading per record and draws every embeddable
      existing screenshot, all in record order. */
  lemma OnEndMarks(records: seq<CaseRecord>, tops: seq<int>, existing: set<string>, embeddable: set<string>)
    requires |tops| == |records|
    ensures Headings(OnEnd(records, tops, existing, embeddable)) == RecordHeadings(records)
    ensures ImagePaths(OnEnd(records, tops, existing, embeddable)) == RecordShots(records, existing, embeddable)
  {
    var title := [Text("Playwright Test Execution Report", 18, Centered), MoveDown(1.5)];
    UnmarkedHasNoMarks(title);
    CasesFromMarks(records, tops, 0, existing, embeddable);
    MarksAppend(title, CasesFrom(records, tops, 0, existing, embeddable));
    assert records[0..] == records;
  }

  /** The operations of each record of the report, in record order. */
  function CaseRows(records: seq<CaseRecord>, tops: seq<int>, existing: set<string>, embeddable: set<string>)
    : (rows: seq<seq<Op>>)
    requires |tops| == |records|
    ensures |rows| == |records|
  {
    seq(|records|, i requires 0 <= i < |records| =>
      CaseOps(records[i], tops[i], existing, embeddable, i == |records| - 1))
  }

  /** Row i holds record i's operations. */
  lemma CaseRowsAt(records: seq<CaseRecord>, tops: seq<int>, i: nat, existing: set<string>, embeddable: set<string>)
    requires |tops| == |records| && i < |records|
    ensures CaseRows(records, tops, existing, embeddable)[i]
         == CaseOps(records[i], tops[i], existing, embeddable, i == |records| - 1)
  {
  }

  /** The records from k on are their operations, record after record. */
  lemma {:induction false} CasesFromIsFlatten(records: seq<CaseRecord>, tops: seq<int>, k: nat,
                                              existing: set<string>, embeddable: set<string>)
    requires |tops| == |records| && k <= |records|
    ensures CasesFrom(records, tops, k, existing, embeddable)
         == Flatten(CaseRows(records, tops, existing, embeddable)[k..])
    decreases |records| - k
  {
    var rows := CaseRows(records, tops, existing, embeddable)[k..];
    if k < |records| {
      CasesFromIsFlatten(records, tops, k + 1, existing, embeddable);
      assert rows[1..] == CaseRows(records, tops, existing, embeddable)[k + 1..];
      CaseRowsAt(records, tops, k, existing, embeddable);
    }
  }

  /** The report is the title, then the records' operations record after
      record. */
  lemma OnEndIsFlatten(records: seq<CaseRecord>, tops: seq<int>, existing: set<string>, embeddable: set<string>)
    requires |tops| == |records|
    ensures OnEnd(records, tops, existing, embeddable)
         == [Text("Playwright Test Execution Report", 18, Centered), MoveDown(1.5)]
            + Flatten(CaseRows(records, tops, existing, embeddable))
  {
    CasesFromIsFlatten(records, tops, 0, existing, embeddable);
    assert CaseRows(records, tops, existing, embeddable)[0..] == CaseRows(records, tops, existing, embeddable);
  }

  // ---------------------------------------------------------------------
  // Page breaks

  function PageBreaks(ops: seq<Op>): nat
    decreases |ops|
  {
    if |ops| == 0 then 0 else (if ops[0].AddPage? then 1 else 0) + PageBreaks(ops[1..])
  }

  lemma {:induction false} PageBreaksAppend(a: seq<Op>, b: seq<Op>)
    ensures PageBreaks(a + b) == PageBreaks(a) + PageBreaks(b)
    decreases |a|
  {
    if |a| > 0 {
      assert (a + b)[1..] == a[1..] + b;
      PageBreaksAppend(a[1..], b);
    } else {
      assert a + b == b;
    }
  }

  lemma {:induction false} NoPageBreaksWithoutAddPage(ops: seq<Op>)
    requires forall i :: 0 <= i < |ops| ==> !ops[i].AddPage?
    ensures PageBreaks(ops) == 0
    decreases |ops|
  {
    if |ops| > 0 {
      NoPageBreaksWithoutAddPage(ops[1..]);
    }
  }

  /** How many of the paths name existing files. */
  function ExistingCount(paths: seq<string>, existing: set<string>): nat
    decreases |paths|
  {
    if |paths| == 0 then 0 else (if paths[0] in existing then 1 else 0) + ExistingCount(paths[1..], existing)
  }

  /** An existing screenshot opens exactly one new page, a missing one none. */
  lemma ShotOpPageBreaks(p: string, existing: set<string>, embeddable: set<string>)
    ensures PageBreaks(ShotOp(p, existing, embeddable)) == if p in existing then 1 else 0
  {
    var ops := ShotOp(p, existing, embeddable);
    if p in existing {
      NoPageBreaksWithoutAddPage(ops[1..]);
    }
  }

  /** Every existing screenshot opens exactly one new page. */
  lemma {:induction false} ShotOpsPageBreaks(paths: seq<string>, existing: set<string>, embeddable: set<string>)
    ensures PageBreaks(ShotOps(paths, existing, embeddable)) == ExistingCount(paths, existing)
    decreases |paths|
  {
    if |paths| > 0 {
      ShotOpsPageBreaks(paths[1..], existing, embeddable);
      ShotOpPageBreaks(paths[0], existing, embeddable);
      PageBreaksAppend(ShotOp(paths[0], existing, embeddable), ShotOps(paths[1..], existing, embeddable));
    }
  }

  /** Rows of cells never break a page. */
  lemma {:induction false} CellRowsHaveNoPageBreaks(rows: seq<seq<Op>>)
    requires forall r :: 0 <= r < |rows| ==> forall i :: 0 <= i < |rows[r]| ==> rows[r][i].Cell?
    ensures PageBreaks(Flatten(rows)) == 0
    decreases |rows|
  {
    if |rows| > 0 {
      NoPageBreaksWithoutAddPage(rows[0]);
      CellRowsHaveNoPageBreaks(rows[1..]);
      PageBreaksAppend(rows[0], Flatten(rows[1..]));
    }
  }

  /** The step table draws only cells, so it never breaks a page. */
  lemma TableHasNoPageBreaks(top: int, steps: seq<StepRow>)
    ensures PageBreaks(Flatten(DrawTable(top, steps))) == 0
  {
    var rows: seq<seq<Op>> := DrawTable(top, steps);
    forall r | 0 <= r < |rows|
      ensures forall i :: 0 <= i < |rows[r]| ==> rows[r][i].Cell?
    {
    }
    CellRowsHaveNoPageBreaks(rows);
  }

  /** One record contributes a page per existing screenshot, plus the
      trailing break unless it is the last record. */
  lemma CaseOpsPageBreaks(rec: CaseRecord, top: int, existing: set<string>, embeddable: set<string>,
                          isLast: bool)
    ensures PageBreaks(CaseOps(rec, top, existing, embeddable, isLast))
         == ExistingCount(rec.screenshots, existing) + (if isLast then 0 else 1)
  {
    var intro := [ Text("Test Case: " + rec.testCase, 14, Underlined),
                   Text("Overall Status: " + rec.overallStatus, 12, Body),
                   Text("Total Duration: " + rec.totalDuration, 12, Body),
                   MoveDown(0.5) ];
    var table := Flatten(DrawTable(top, rec.steps));
    var shots := ShotOps(rec.screenshots, existing, embeddable);
    var tail: seq<Op> := if isLast then [] else [AddPage];
    NoPageBreaksWithoutAddPage(intro);
    TableHasNoPageBreaks(top, rec.steps);
    NoPageBreaksWithoutAddPage([MoveDown(2.0)]);
    PageBreaksAppend(intro, table);
    PageBreaksAppend(intro + table, [MoveDown(2.0)]);
    ShotOpsPageBreaks(rec.screenshots, existing, embeddable);
    PageBreaksAppend(intro + table + [MoveDown(2.0)], shots);
    PageBreaksAppend(intro + table + [MoveDown(2.0)] + shots, tail);
    assert PageBreaks([AddPage]) == 1 by {
      assert [AddPage][1..] == [];
    }
  }

  /** The screenshots that exist, over records k.. */
  function ExistingFrom(records: seq<CaseRecord>, k: nat, existing: set<string>): nat
    requires k <= |records|
    decreases |records| - k
  {
    if k == |records| then 0
    else ExistingCount(records[k].screenshots, existing) + ExistingFrom(records, k + 1, existing)
  }

  lemma {:induction false} CasesFromPageBreaks(records: seq<CaseRecord>, tops: seq<int>, k: nat,
                                               existing: set<string>, embeddable: set<string>)
    requires |tops| == |records| && k < |records|
    ensures PageBreaks(CasesFrom(records, tops, k, existing, embeddable))
         == |records| - 1 - k + ExistingFrom(records, k, existing)
    decreases |records| - k
  {
    var isLast := k == |records| - 1;
    CaseOpsPageBreaks(records[k], tops[k], existing, embeddable, isLast);
    PageBreaksAppend(CaseOps(records[k], tops[k], existing, embeddable, isLast),
                     CasesFrom(records, tops, k + 1, existing, embeddable));
    if !isLast {
      CasesFromPageBreaks(records, tops, k + 1, existing, embeddable);
    }
  }

  /** With n ≥ 1 records the document breaks pages n − 1 times between
      records and once per existing screenshot; with none it never does. */
  lemma OnEndPageBreaks(records: seq<CaseRecord>, tops: seq<int>, existing: set<string>, embeddable: set<string>)
    requires |tops| == |records|
    ensures |records| == 0 ==> PageBreaks(OnEnd(records, tops, existing, embeddable)) == 0
    ensures |records| > 0 ==>
      PageBreaks(OnEnd(records, tops, existing, embeddable))
        == |records| - 1 + ExistingFrom(records, 0, existing)
  {
    var title := [Text("Playwright Test Execution Report", 18, Centered), MoveDown(1.5)];
    NoPageBreaksWithoutAddPage(title);
    PageBreaksAppend(title, CasesFrom(records, tops, 0, existing, embeddable));
    if |records| > 0 {
      CasesFromPageBreaks(records, tops, 0, existing, embeddable);
    }
  }
}
