/** File paths as the reporters build and take them apart. */
module Paths {
  import opened JsStrings

  /** `path.join(dir, name)` for a directory and an entry name. */
  function JoinPath(dir: string, name: string): (p: string)
    ensures |p| == |dir| + 1 + |name|
    ensures p[..|dir|] == dir && p[|dir|] == '/' && p[|dir| + 1..] == name
    ensures EndsWith(p, name)
  {
    dir + "/" + name
  }

  /** `path.basename(p)`: the part after the last `/`. */
  function Basename(p: string): (b: string)
    ensures '/' !in b
    ensures EndsWith(p, b)
    decreases |p|
  {
    if '/' !in p then p
    else
      var i := IndexOf(p, '/');
      var b := Basename(p[i + 1..]);
      assert p[|p| - |b|..] == p[i + 1..][|p[i + 1..]| - |b|..];
      b
  }

  /** The base name of a joined path is the entry name, for every name a
      directory listing can return (one without `/`). */
  lemma {:induction false} BasenameOfJoin(dir: string, name: string)
    requires '/' !in name
    ensures Basename(JoinPath(dir, name)) == name
    decreases |dir|
  {
    var p := JoinPath(dir, name);
    var i := IndexOf(p, '/');
    if i < |dir| {
      assert p[i + 1..] == JoinPath(dir[i + 1..], name);
      BasenameOfJoin(dir[i + 1..], name);
    } else {
      assert i == |dir| by {
        assert p[|dir|] == '/';
      }
      assert p[i + 1..] == name;
    }
  }
}

/** The report document shared by the pdfmake-based reporters: a sequence
    of tagged blocks, and the pieces every variant builds the same way. */
module ReportDoc {
  import opened Results
  import opened JsStrings
  import opened JsNumbers

  /** The named styles of the document definition; blocks without a style
      are `Plain`. */
  datatype Style = Header | Subheader | Caption | Plain

  /** One content entry of a pdfmake document definition. Images are
      referred to by the file they were read from; their bytes are not
      modelled. */
  datatype Block =
    | TextBlock(text: string, style: Style)
    | TableBlock(body: seq<seq<string>>, widths: seq<string>)
    | ImageBlock(file: string, width: nat, height: nat)

  /** A step of a test result; `failed` is whether `step.error` is set. */
  datatype Step = Step(title: string, failed: bool, duration: Duration)

  /** The pixel size `image-size` reports for a decodable image. */
  datatype ImageSize = ImageSize(width: Pos, height: nat)

  /** A screenshot directory entry: its name and, when `image-size` can
      decode the file, its size (`None` makes `image-size` throw). */
  datatype ShotFile = ShotFile(name: string, size: Option<ImageSize>)

  const ReportTitle: string := "\U{1F4C4} Playwright Custom Report"
  const PassedLabel: string := "\U{2714} Passed"
  const FailedLabel: string := "\U{274C} Failed"
  const StarWidths: seq<string> := ["*", "*", "*"]

  /** `step.error ? '❌ Failed' : '✔ Passed'`. */
  function StatusLabel(failed: bool): (r: string)
    ensures r == FailedLabel <==> failed
    ensures r == PassedLabel <==> !failed
  {
    if failed then FailedLabel else PassedLabel
  }

  /** The four text blocks every pdfmake report opens with. */
  function HeaderBlocks(baseUrl: string, title: string, status: string): (r: seq<Block>)
    ensures |r| == 4
    ensures forall i :: 0 <= i < 4 ==> r[i].TextBlock?
    ensures r[0] == TextBlock(ReportTitle, Header)
    ensures r[1].style == Plain && r[2].style == Subheader && r[3].style == Plain
    ensures r[1].text == "Base URL: " + baseUrl && r[2].text == "Test Case: " + title
    ensures r[3].text == "Overall Status: " + status
  {
    [ TextBlock(ReportTitle, Header),
      TextBlock("Base URL: " + baseUrl, Plain),
      TextBlock("Test Case: " + title, Subheader),
      TextBlock("Overall Status: " + status, Plain) ]
  }

  /** The caption and the scaled image for each selected screenshot, in
      the given order; the whole report fails when one file cannot be
      decoded. */
  function ScreenshotBlocks(files: seq<ShotFile>): (r: Result<seq<Block>>)
    ensures r.Ok? <==> forall i :: 0 <= i < |files| ==> files[i].size.Some?
    ensures r.Ok? ==> |r.value| == 2 * |files|
    ensures r.Ok? ==> forall k :: 0 <= k < |files| ==>
      && r.value[2 * k] == TextBlock("Screenshot: " + files[k].name, Caption)
      && r.value[2 * k + 1] == ImageBlock(files[k].name, TargetWidth,
           ScaledHeight(files[k].size.value.width, files[k].size.value.height))
    decreases |files|
  {
    if |files| == 0 then Ok([])
    else
      var f := files[0];
      match f.size
      case None => Err("unsupported image: " + f.name)
      case Some(sz) =>
        match ScreenshotBlocks(files[1..])
        case Err(e) => Err(e)
        case Ok(rest) =>
          Ok([TextBlock("Screenshot: " + f.name, Caption),
              ImageBlock(f.name, TargetWidth, ScaledHeight(sz.width, sz.height))] + rest)
  }

  /** How many blocks of a document are images, and how many tables. */
  function ImageCount(blocks: seq<Block>): nat
    decreases |blocks|
  {
    if |blocks| == 0 then 0 else (if blocks[0].ImageBlock? then 1 else 0) + ImageCount(blocks[1..])
  }

  function TableCount(blocks: seq<Block>): nat
    decreases |blocks|
  {
    if |blocks| == 0 then 0 else (if blocks[0].TableBlock? then 1 else 0) + TableCount(blocks[1..])
  }

  lemma {:induction false} CountsAppend(a: seq<Block>, b: seq<Block>)
    ensures ImageCount(a + b) == ImageCount(a) + ImageCount(b)
    ensures TableCount(a + b) == TableCount(a) + TableCount(b)
    decreases |a|
  {
    if |a| > 0 {
      assert (a + b)[1..] == a[1..] + b;
      CountsAppend(a[1..], b);
    } else {
      assert a + b == b;
    }
  }

  /** A run of text blocks holds no image and no table. */
  lemma {:induction false} TextOnlyCounts(blocks: seq<Block>)
    requires forall i :: 0 <= i < |blocks| ==> blocks[i].TextBlock?
    ensures ImageCount(blocks) == 0 && TableCount(blocks) == 0
    decreases |blocks|
  {
    if |blocks| > 0 {
      TextOnlyCounts(blocks[1..]);
    }
  }

  /** The opening blocks hold no image and no table, so every image and
      table of a report comes after them. */
  lemma HeaderBlocksCounts(baseUrl: string, title: string, status: string)
    ensures ImageCount(HeaderBlocks(baseUrl, title, status)) == 0
    ensures TableCount(HeaderBlocks(baseUrl, title, status)) == 0
  {
    TextOnlyCounts(HeaderBlocks(baseUrl, title, status));
  }

  /** Each screenshot contributes exactly one image block and no table. */
  lemma {:induction false} ScreenshotBlockCounts(files: seq<ShotFile>)
    requires ScreenshotBlocks(files).Ok?
    ensures ImageCount(ScreenshotBlocks(files).value) == |files|
    ensures TableCount(ScreenshotBlocks(files).value) == 0
    decreases |files|
  {
    if |files| > 0 {
      var blocks := ScreenshotBlocks(files).value;
      ScreenshotBlockCounts(files[1..]);
      var rest := ScreenshotBlocks(files[1..]).value;
      assert blocks == [blocks[0], blocks[1]] + rest;
      CountsAppend([blocks[0], blocks[1]], rest);
      assert [blocks[0], blocks[1]][1..] == [blocks[1]];
    }
  }

  // ---------------------------------------------------------------------
  // Name sanitisers

  /** `[^\w\-]`: the characters the title sanitiser replaces. */
  predicate IsTitleSpecial(c: char) {
    !IsWordChar(c) && c != '-'
  }

  /** `title.replace(/[^\w\-]+/g, '_')`: the directory-safe key of a test. */
  function SafeTitle(title: string): (r: string)
    ensures forall i :: 0 <= i < |r| ==> IsWordChar(r[i]) || r[i] == '-'
    ensures |r| <= |title| && (|title| > 0 ==> |r| > 0)
  {
    ReplaceRuns(title, IsTitleSpecial, '_')
  }

  /** Sanitising a title twice is sanitising it once. */
  lemma SafeTitleIdempotent(title: string)
    ensures SafeTitle(SafeTitle(title)) == SafeTitle(title)
  {
    ReplaceRunsIdempotent(title, IsTitleSpecial, '_');
  }

  /** A title already made of word characters and `-` is its own key. */
  lemma SafeTitleKeepsSafeTitles(title: string)
    requires forall i :: 0 <= i < |title| ==> IsWordChar(title[i]) || title[i] == '-'
    ensures SafeTitle(title) == title
  {
    ReplaceRunsIdentity(title, IsTitleSpecial, '_');
  }

  /** Two titles that differ only inside their special-character runs share
      a key: "A/B" and "A.B" both become "A_B". */
  lemma SafeTitleCollision()
    ensures SafeTitle("A/B") == SafeTitle("A.B") == "A_B"
  {
    assert "A/B"[..2] == "A/" && "A/"[..1] == "A" && "A"[..0] == "";
    assert "A.B"[..2] == "A." && "A."[..1] == "A";
  }

  /** `[/:, ]`: the separators a locale timestamp is stripped of. */
  predicate IsStampSeparator(c: char) {
    c == '/' || c == ':' || c == ',' || c == ' '
  }

  /** `stamp.replace(/[/:, ]+/g, '_')`. */
  function SanitizeTimestamp(stamp: string): (r: string)
    ensures forall i :: 0 <= i < |r| ==> !IsStampSeparator(r[i])
    ensures |r| <= |stamp|
  {
    ReplaceRuns(stamp, IsStampSeparator, '_')
  }

  /** `s.replace(/\s+/g, '_')`. */
  function Underscored(s: string): (r: string)
    ensures NoSpace(r)
    ensures |r| <= |s|
  {
    ReplaceRuns(s, IsSpace, '_')
  }

  /** Each maximal run of characters outside `[\w-]` becomes exactly one
      `_`, and the text on either side is sanitised on its own. */
  lemma SafeTitleCollapsesRuns(a: string, run: string, b: string)
    requires |run| > 0 && forall i :: 0 <= i < |run| ==> IsTitleSpecial(run[i])
    requires |a| > 0 ==> !IsTitleSpecial(a[|a| - 1])
    requires |b| > 0 ==> !IsTitleSpecial(b[0])
    ensures SafeTitle(a + run + b) == SafeTitle(a) + "_" + SafeTitle(b)
  {
    ReplaceRunsCollapse(a, run, b, IsTitleSpecial, '_');
  }

  /** Each maximal run of white space becomes exactly one `_`. */
  lemma UnderscoredCollapsesRuns(a: string, run: string, b: string)
    requires |run| > 0 && forall i :: 0 <= i < |run| ==> IsSpace(run[i])
    requires |a| > 0 ==> !IsSpace(a[|a| - 1])
    requires |b| > 0 ==> !IsSpace(b[0])
    ensures Underscored(a + run + b) == Underscored(a) + "_" + Underscored(b)
  {
    ReplaceRunsCollapse(a, run, b, IsSpace, '_');
  }

  /** Each maximal run of '/', ':', ',' and spaces becomes exactly one `_`. */
  lemma SanitizeTimestampCollapsesRuns(a: string, run: string, b: string)
    requires |run| > 0 && forall i :: 0 <= i < |run| ==> IsStampSeparator(run[i])
    requires |a| > 0 ==> !IsStampSeparator(a[|a| - 1])
    requires |b| > 0 ==> !IsStampSeparator(b[0])
    ensures SanitizeTimestamp(a + run + b) == SanitizeTimestamp(a) + "_" + SanitizeTimestamp(b)
  {
    ReplaceRunsCollapse(a, run, b, IsStampSeparator, '_');
  }

  /** Single spaces between words each become one `_`: "a b c" gives
      "a_b_c". */
  lemma UnderscoredBetweenWords(x: char, y: char, z: char)
    requires !IsSpace(x) && !IsSpace(y) && !IsSpace(z)
    ensures Underscored([x, ' ', y, ' ', z]) == [x, '_', y, '_', z]
  {
    assert [x, ' ', y, ' ', z] == [x] + [' '] + [y, ' ', z];
    assert [y, ' ', z] == [y] + [' '] + [z];
    UnderscoredCollapsesRuns([y], [' '], [z]);
    UnderscoredCollapsesRuns([x], [' '], [y, ' ', z]);
    ReplaceRunsIdentity([x], IsSpace, '_');
    ReplaceRunsIdentity([y], IsSpace, '_');
    ReplaceRunsIdentity([z], IsSpace, '_');
  }

  /** Both name sanitisers keep every other character of their input, in
      order, and add only underscores. */
  lemma SanitizersKeepOtherCharacters(s: string)
    ensures Others(SafeTitle(s), IsTitleSpecial, '_') == Others(s, IsTitleSpecial, '_')
    ensures Others(Underscored(s), IsSpace, '_') == Others(s, IsSpace, '_')
    ensures Others(SanitizeTimestamp(s), IsStampSeparator, '_') == Others(s, IsStampSeparator, '_')
  {
    ReplaceRunsKeepsOthers(s, IsTitleSpecial, '_');
    ReplaceRunsKeepsOthers(s, IsSpace, '_');
    ReplaceRunsKeepsOthers(s, IsStampSeparator, '_');
  }

  // ---------------------------------------------------------------------
  // Selecting directory entries

  /** `xs.filter(p)`. */
  function Filter<T>(xs: seq<T>, p: T -> bool): (r: seq<T>)
    ensures |r| <= |xs|
    ensures forall i :: 0 <= i < |r| ==> p(r[i]) && r[i] in xs
    ensures forall i :: 0 <= i < |xs| && p(xs[i]) ==> xs[i] in r
    decreases |xs|
  {
    if |xs| == 0 then []
    else if p(xs[0]) then [xs[0]] + Filter(xs[1..], p)
    else Filter(xs[1..], p)
  }

  /** Filtering distributes over concatenation, so kept entries stay in
      their listing order. */
  lemma {:induction false} FilterAppend<T>(a: seq<T>, b: seq<T>, p: T -> bool)
    ensures Filter(a + b, p) == Filter(a, p) + Filter(b, p)
    decreases |a|
  {
    if |a| > 0 {
      assert (a + b)[1..] == a[1..] + b;
      FilterAppend(a[1..], b, p);
    } else {
      assert a + b == b;
    }
  }
}
