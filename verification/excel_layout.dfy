/** The sheet `writeTestResultsToExcel` builds: five fixed columns, then one
    `UWI_k` column per underwriting-issue description of the result that has
    the most, and one row per result whose `UWI_k` cells hold that result's
    descriptions. Writing the workbook to disk is not part of the model. */
module ExcelLayout {
  import opened JsStrings

  /** One entry of the `testResults` argument. */
  datatype TestResult = TestResult(
    testCase: string,
    status: string,
    accountNumber: string,
    submissionNumber: string,
    policyNumber: string,
    descriptions: seq<string>)

  /** An ExcelJS column definition. */
  datatype Column = Column(header: string, key: string, width: nat)

  /** A worksheet: its name, its columns and its rows, each row a record
      from column key to cell text. */
  datatype Sheet = Sheet(name: string, columns: seq<Column>, rows: seq<map<string, string>>)

  /** What `Math.max(...xs)` yields on counts: `-Infinity` for no
      arguments, otherwise the largest one. */
  datatype JsMax = NegativeInfinity | Finite(n: nat)

  const BaseColumns: seq<Column> := [
    Column("Test Case Title", "testCase", 45),
    Column("Status", "status", 15),
    Column("Account_number", "Account_number", 15),
    Column("Submission_number", "Submission_number", 15),
    Column("Policy_number", "Policy_number", 15)
  ]

  const UwiWidth: nat := 30

  /** The keys of the five base columns. */
  function BaseKeys(): (keys: set<string>)
    ensures |keys| == 5
    ensures forall key :: key in keys ==> |key| > 0 && key[0] != 'U'
  {
    assert "testCase" != "status";
    assert "Account_number"[0] != "Submission_number"[0];
    {"testCase", "status", "Account_number", "Submission_number", "Policy_number"}
  }

  /** `UWI_${k}`: the header and the key of the k-th description column. */
  function UwiKey(k: nat): (key: string)
    ensures |key| > 4 && key[0] == 'U'
  {
    "UWI_" + NatToString(k)
  }

  /** Different positions get different keys, and no description key is a
      base key. */
  lemma UwiKeyInjective(a: nat, b: nat)
    ensures UwiKey(a) == UwiKey(b) <==> a == b
    ensures UwiKey(a) !in BaseKeys()
  {
    if UwiKey(a) == UwiKey(b) {
      assert NatToString(a) == UwiKey(a)[4..] == UwiKey(b)[4..] == NatToString(b);
      NatToStringInjective(a, b);
    }
  }

  /** The keys `UWI_k` for `lo < k <= hi`. */
  function UwiKeys(lo: nat, hi: nat): set<string> {
    set k: nat | lo < k <= hi :: UwiKey(k)
  }

  /** `Math.max(...testResults.map((r) => r.UWIDescription.length))`. */
  function MaxDescriptionCount(results: seq<TestResult>): (m: JsMax)
    ensures results == [] <==> m == NegativeInfinity
    ensures m.Finite? ==> forall i :: 0 <= i < |results| ==> |results[i].descriptions| <= m.n
    ensures m.Finite? ==> exists i :: 0 <= i < |results| && |results[i].descriptions| == m.n
  {
    if results == [] then NegativeInfinity
    else
      var here := |results[0].descriptions|;
      match MaxDescriptionCount(results[1..])
      case NegativeInfinity => Finite(here)
      case Finite(n) =>
        var j :| 0 <= j < |results[1..]| && |results[1..][j].descriptions| == n;
        assert |results[j + 1].descriptions| == n;
        if here >= n then Finite(here) else Finite(n)
  }

  /** `Array.from({ length })`: a length of `-Infinity` is clamped to 0. */
  function ArrayLength(m: JsMax): (len: nat)
    ensures m.Finite? ==> len == m.n
  {
    match m
    case NegativeInfinity => 0
    case Finite(n) => n
  }

  /** The dynamic columns `UWI_1 … UWI_m`, all 30 wide. */
  function UwiColumns(m: nat): (cols: seq<Column>)
    ensures |cols| == m
    ensures forall i :: 0 <= i < m ==> cols[i] == Column(UwiKey(i + 1), UwiKey(i + 1), UwiWidth)
  {
    seq(m, i requires 0 <= i < m => Column(UwiKey(i + 1), UwiKey(i + 1), UwiWidth))
  }

  /** The record for one result before its descriptions are added. */
  function BaseRow(r: TestResult): map<string, string> {
    map["testCase" := r.testCase,
        "status" := r.status,
        "Account_number" := r.accountNumber,
        "Submission_number" := r.submissionNumber,
        "Policy_number" := r.policyNumber]
  }

  /** `result.UWIDescription.forEach((desc, index) => row[`UWI_${index + 1}`] = desc)`
      from `index == i` on. */
  function AddDescriptions(row: map<string, string>, descs: seq<string>, i: nat)
    : (r: map<string, string>)
    requires i <= |descs|
    ensures r.Keys == row.Keys + UwiKeys(i, |descs|)
    ensures forall k :: i < k <= |descs| ==> UwiKey(k) in r && r[UwiKey(k)] == descs[k - 1]
    ensures forall key :: key in row && key !in UwiKeys(i, |descs|) ==> r[key] == row[key]
    decreases |descs| - i
  {
    if i == |descs| then
      assert UwiKeys(i, |descs|) == {};
      row
    else
      var next := row[UwiKey(i + 1) := descs[i]];
      var r := AddDescriptions(next, descs, i + 1);
      assert UwiKeys(i, |descs|) == {UwiKey(i + 1)} + UwiKeys(i + 1, |descs|);
      forall k | i + 1 < k <= |descs|
        ensures UwiKey(k) != UwiKey(i + 1)
      {
        UwiKeyInjective(k, i + 1);
      }
      r
  }

  /** The row `sheet.addRow` receives for one result. */
  function RowOf(r: TestResult): map<string, string> {
    AddDescriptions(BaseRow(r), r.descriptions, 0)
  }

  /** A row carries the five base fields unchanged, and `UWI_k` is set
      exactly for `1 <= k <= |descriptions|`, holding description `k - 1`. */
  lemma RowOfContents(r: TestResult)
    ensures RowOf(r).Keys == BaseKeys() + UwiKeys(0, |r.descriptions|)
    ensures RowOf(r)["testCase"] == r.testCase && RowOf(r)["status"] == r.status
    ensures RowOf(r)["Account_number"] == r.accountNumber
    ensures RowOf(r)["Submission_number"] == r.submissionNumber
    ensures RowOf(r)["Policy_number"] == r.policyNumber
    ensures forall k: nat :: UwiKey(k) in RowOf(r) <==> 1 <= k <= |r.descriptions|
    ensures forall k :: 1 <= k <= |r.descriptions| ==> RowOf(r)[UwiKey(k)] == r.descriptions[k - 1]
  {
    var n := |r.descriptions|;
    assert BaseRow(r).Keys == BaseKeys();
    forall k: nat | UwiKey(k) in RowOf(r)
      ensures 1 <= k <= n
    {
      UwiKeyInjective(k, k);
      if UwiKey(k) !in BaseKeys() {
        var k2: nat :| 0 < k2 <= n && UwiKey(k) == UwiKey(k2);
        UwiKeyInjective(k, k2);
      }
    }
  }

  /** `writeTestResultsToExcel` without the file: the base columns, then the
      description columns, then one row per result in order. */
  function WriteTestResultsToExcel(sheetName: string, results: seq<TestResult>): (s: Sheet)
    ensures s.name == sheetName
    ensures |s.columns| == 5 + ArrayLength(MaxDescriptionCount(results))
    ensures s.columns[..5] == BaseColumns
    ensures forall i :: 5 <= i < |s.columns| ==>
      s.columns[i] == Column(UwiKey(i - 4), UwiKey(i - 4), UwiWidth)
    ensures |s.rows| == |results|
    ensures forall i :: 0 <= i < |results| ==> s.rows[i] == RowOf(results[i])
    ensures results == [] ==> s.columns == BaseColumns && s.rows == []
  {
    var m := ArrayLength(MaxDescriptionCount(results));
    var cols := BaseColumns + UwiColumns(m);
    assert cols[..5] == BaseColumns;
    Sheet(sheetName, cols, seq(|results|, i requires 0 <= i < |results| => RowOf(results[i])))
  }

  /** The keys of a list of columns. */
  function ColumnKeys(cols: seq<Column>): set<string> {
    set i | 0 <= i < |cols| :: cols[i].key
  }

  /** The keys of the base columns are the base keys. */
  lemma BaseColumnKeys()
    ensures ColumnKeys(BaseColumns) == BaseKeys()
  {
    var keys := ColumnKeys(BaseColumns);
    assert BaseColumns[0].key in keys && BaseColumns[1].key in keys && BaseColumns[2].key in keys;
    assert BaseColumns[3].key in keys && BaseColumns[4].key in keys;
  }

  /** The keys of the description columns are `UWI_1 … UWI_m`. */
  lemma UwiColumnKeys(m: nat)
    ensures ColumnKeys(UwiColumns(m)) == UwiKeys(0, m)
  {
    var cols := UwiColumns(m);
    forall key | key in UwiKeys(0, m)
      ensures key in ColumnKeys(cols)
    {
      var k: nat :| 0 < k <= m && key == UwiKey(k);
      assert cols[k - 1].key == key;
    }
  }

  /** The keys of two lists of columns side by side. */
  lemma ColumnKeysAppend(a: seq<Column>, b: seq<Column>)
    ensures ColumnKeys(a + b) == ColumnKeys(a) + ColumnKeys(b)
  {
    forall key | key in ColumnKeys(b)
      ensures key in ColumnKeys(a + b)
    {
      var i :| 0 <= i < |b| && b[i].key == key;
      assert (a + b)[|a| + i] == b[i];
    }
    forall key | key in ColumnKeys(a)
      ensures key in ColumnKeys(a + b)
    {
      var i :| 0 <= i < |a| && a[i].key == key;
      assert (a + b)[i] == a[i];
    }
  }

  /** The column keys of the sheet are the base keys and `UWI_1 … UWI_m`. */
  lemma SheetColumnKeys(sheetName: string, results: seq<TestResult>)
    ensures var cols := WriteTestResultsToExcel(sheetName, results).columns;
      ColumnKeys(cols) == BaseKeys() + UwiKeys(0, |cols| - 5)
  {
    var m := ArrayLength(MaxDescriptionCount(results));
    assert WriteTestResultsToExcel(sheetName, results).columns == BaseColumns + UwiColumns(m);
    ColumnKeysAppend(BaseColumns, UwiColumns(m));
    BaseColumnKeys();
    UwiColumnKeys(m);
  }

  /** The five base columns have five different keys. */
  lemma BaseKeysDistinct(i: nat, j: nat)
    requires i < j < 5
    ensures BaseColumns[i].key != BaseColumns[j].key
  {
    assert BaseColumns[i].key[0] != BaseColumns[j].key[0] || |BaseColumns[i].key| != |BaseColumns[j].key|;
  }

  /** No two columns share a key. */
  predicate DistinctKeys(cols: seq<Column>) {
    forall i, j :: 0 <= i < j < |cols| ==> cols[i].key != cols[j].key
  }

  /** A base column and a description column never share a key. */
  lemma BaseAndUwiKeysDiffer(i: nat, k: nat)
    requires i < 5
    ensures BaseColumns[i].key != UwiKey(k)
  {
    BaseColumnKeys();
    assert BaseColumns[i].key in ColumnKeys(BaseColumns);
    UwiKeyInjective(k, k);
  }

  /** The base columns followed by `UWI_1 … UWI_m` have distinct keys. */
  lemma LayoutKeysDistinct(m: nat)
    ensures DistinctKeys(BaseColumns + UwiColumns(m))
  {
    var b: seq<Column> := BaseColumns;
    var u: seq<Column> := UwiColumns(m);
    forall i, j | 0 <= i < j < |b + u|
      ensures (b + u)[i].key != (b + u)[j].key
    {
      if i >= 5 {
        assert (b + u)[i] == u[i - 5] && (b + u)[j] == u[j - 5];
        UwiKeyInjective(j - 4, i - 4);
      } else if j >= 5 {
        assert (b + u)[i] == b[i] && (b + u)[j] == u[j - 5];
        BaseAndUwiKeysDiffer(i, j - 4);
      } else {
        assert (b + u)[i] == b[i] && (b + u)[j] == b[j];
        BaseKeysDistinct(i, j);
      }
    }
  }

  /** No two columns of the sheet share a key. */
  lemma ColumnKeysDistinct(sheetName: string, results: seq<TestResult>)
    ensures DistinctKeys(WriteTestResultsToExcel(sheetName, results).columns)
  {
    LayoutKeysDistinct(ArrayLength(MaxDescriptionCount(results)));
  }

  /** Every key a row sets is a declared column: no result has more
      descriptions than there are `UWI_k` columns. */
  lemma RowKeysDeclared(sheetName: string, results: seq<TestResult>, i: nat)
    requires i < |results|
    ensures var s := WriteTestResultsToExcel(sheetName, results);
      s.rows[i].Keys <= ColumnKeys(s.columns)
  {
    var s := WriteTestResultsToExcel(sheetName, results);
    RowOfContents(results[i]);
    SheetColumnKeys(sheetName, results);
    var n := |results[i].descriptions|;
    assert n <= |s.columns| - 5;
    assert UwiKeys(0, n) <= UwiKeys(0, |s.columns| - 5);
  }
}
