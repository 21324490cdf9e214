/** File handling of the CLIP gallery: which files of a folder are loaded
    as images (LoadImagesFromFolder) and the CSV export (SaveToCSV). */
module ClipExport {
  import opened Optional
  import Text
  import opened ClipTags

  /** The directory separators of System.IO.Path on Windows. */
  predicate IsDirSeparator(c: char) {
    c == '/' || c == '\\'
  }

  /** The last '.' before position i that is not cut off by a directory
      separator, scanning down as Path.GetExtension does; -1 if none. */
  function LastDot(path: string, i: nat): (d: int)
    requires i <= |path|
    ensures -1 <= d < i
    ensures d >= 0 ==> path[d] == '.' && CleanTail(path, d + 1, i)
    ensures d < 0 ==> forall j :: 0 <= j < i && path[j] == '.' ==> !CleanTail(path, j + 1, i)
  {
    if i == 0 then -1
    else if path[i - 1] == '.' then i - 1
    else if IsDirSeparator(path[i - 1]) then -1
    else LastDot(path, i - 1)
  }

  /** path[from..to] holds neither a '.' nor a directory separator. */
  predicate CleanTail(path: string, from: int, to: int)
    requires 0 <= from <= to <= |path|
  {
    forall j :: from <= j < to ==> path[j] != '.' && !IsDirSeparator(path[j])
  }

  /** Path.GetExtension: from the last '.' of the file name to the end, or
      "" when the name has no '.' or ends with it. */
  function GetExtension(path: string): (ext: string)
    ensures ext != "" ==> (2 <= |ext| <= |path| && ext[0] == '.' && ext == path[|path| - |ext|..]
      && CleanTail(path, |path| - |ext| + 1, |path|))
    ensures ext == "" <==> !exists d :: 0 <= d < |path| - 1 && path[d] == '.' && CleanTail(path, d + 1, |path|)
  {
    var d := LastDot(path, |path|);
    if d < 0 || d == |path| - 1 then ""
    else path[d..]
  }

  /** A dotted suffix without further dots or separators is the extension,
      whatever precedes it. */
  lemma {:induction false} ExtensionOfSuffix(base: string, ext: string)
    requires |ext| >= 2 && ext[0] == '.'
    requires forall j :: 1 <= j < |ext| ==> ext[j] != '.' && !IsDirSeparator(ext[j])
    ensures GetExtension(base + ext) == ext
  {
    var path := base + ext;
    assert path[|base|] == '.';
    assert CleanTail(path, |base| + 1, |path|);
    var r := GetExtension(path);
    assert r != "";
    var d := |path| - |r|;
    assert path[d] == '.';
    assert d >= |base|;
    assert d <= |base|;
  }

  /** For a file whose name ends in a dotted extension, acceptance depends
      on that extension alone, compared case-insensitively. */
  lemma {:induction false} AcceptedByExtension(base: string, ext: string)
    requires |ext| >= 2 && ext[0] == '.'
    requires forall j :: 1 <= j < |ext| ==> ext[j] != '.' && !IsDirSeparator(ext[j])
    ensures IsImageFile(base + ext) <==> var e := Text.Lower(ext); e == ".jpg" || e == ".jpeg" || e == ".png"
  {
    ExtensionOfSuffix(base, ext);
  }

  /** Path.GetFileName: the part after the last directory separator. */
  function GetFileName(path: string): (name: string)
    ensures |name| <= |path| && name == path[|path| - |name|..]
    ensures forall j :: 0 <= j < |name| ==> !IsDirSeparator(name[j])
    ensures |name| < |path| ==> IsDirSeparator(path[|path| - |name| - 1])
  {
    if |path| == 0 then ""
    else if IsDirSeparator(path[|path| - 1]) then ""
    else GetFileName(path[..|path| - 1]) + [path[|path| - 1]]
  }

  /** The accepted image types, compared after lower-casing. */
  predicate IsImageFile(path: string) {
    var ext := Text.Lower(GetExtension(path));
    ext == ".jpg" || ext == ".jpeg" || ext == ".png"
  }

  /** The entries of files that keep accepts, in order. */
  function Keep(files: seq<string>, keep: string -> bool): (r: seq<string>)
    ensures |r| <= |files|
    ensures forall f :: f in r <==> f in files && keep(f)
  {
    if |files| == 0 then []
    else (if keep(files[0]) then [files[0]] else []) + Keep(files[1..], keep)
  }

  lemma {:induction false} KeepAppend(a: seq<string>, b: seq<string>, keep: string -> bool)
    ensures Keep(a + b, keep) == Keep(a, keep) + Keep(b, keep)
    decreases |a|
  {
    if |a| == 0 {
      assert a + b == b;
    } else {
      assert (a + b)[0] == a[0];
      assert (a + b)[1..] == a[1..] + b;
      KeepAppend(a[1..], b, keep);
      var h := if keep(a[0]) then [a[0]] else [];
      var x := Keep(a[1..], keep);
      var y := Keep(b, keep);
      assert h + (x + y) == (h + x) + y;
    }
  }

  /** The validImages list of LoadImagesFromFolder. */
  function ImageFiles(files: seq<string>): (r: seq<string>)
    ensures |r| <= |files|
    ensures forall f :: f in r <==> f in files && IsImageFile(f)
  {
    Keep(files, IsImageFile)
  }

  /** The kept files stay in their original order. */
  lemma {:induction false} ImageFilesInOrder(a: seq<string>, b: seq<string>)
    ensures ImageFiles(a + b) == ImageFiles(a) + ImageFiles(b)
  {
    KeepAppend(a, b, IsImageFile);
  }

  /** The column names of the header line, joined by commas. */
  const HeaderFields: seq<string> :=
    ["FileName", "Tag1", "Score1", "Tag1_JP", "Tag2", "Score2", "Tag2_JP", "Tag3", "Score3", "Tag3_JP"]
  const CsvHeader: string := Text.Join(HeaderFields, ',')

  predicate IsComma(c: char) { c == ',' }
  predicate IsNewline(c: char) { c == '\n' }

  /** The row can be written: the tag list and its first three tags are
      not null (the loop dereferences them). */
  predicate Writable(img: ImageData) {
    img.tags.Some? && forall i :: 0 <= i < |img.tags.value| && i < 3 ==> img.tags.value[i].Some?
  }

  /** The ten fields of an image's row: the file name, then for each of
      the first three tags its name, formatted score and Japanese name,
      three empty fields for each missing tag. */
  function RowFields(img: ImageData, format: real -> string): (fields: seq<string>)
    requires Writable(img)
    ensures |fields| == 10 && fields[0] == img.fileName
    ensures forall i :: 0 <= i < 3 ==>
      if i < |img.tags.value| then
        var t := img.tags.value[i].value;
        fields[3 * i + 1] == t.tag && fields[3 * i + 2] == format(t.score) && fields[3 * i + 3] == t.tagJa
      else
        fields[3 * i + 1] == "" && fields[3 * i + 2] == "" && fields[3 * i + 3] == ""
  {
    [img.fileName] + TripleFields(img, 0, format) + TripleFields(img, 1, format) + TripleFields(img, 2, format)
  }

  function TripleFields(img: ImageData, i: nat, format: real -> string): (f: seq<string>)
    requires Writable(img) && i < 3
    ensures |f| == 3
  {
    if i < |img.tags.value| then
      var t := img.tags.value[i].value;
      [t.tag, format(t.score), t.tagJa]
    else ["", "", ""]
  }

  /** The text the inner for loop appends for slot i. */
  function TripleText(img: ImageData, i: nat, format: real -> string): string
    requires Writable(img) && i < 3
  {
    if i < |img.tags.value| then
      var t := img.tags.value[i].value;
      "," + t.tag + "," + format(t.score) + "," + t.tagJa
    else ",,,"
  }

  /** One CSV line (without its line break); None when a null list or tag
      is dereferenced. */
  function CsvRow(img: ImageData, format: real -> string): (row: Option<string>)
    ensures row.Some? <==> Writable(img)
    ensures row.Some? ==> row.value == Text.Join(RowFields(img, format), ',')
  {
    if !Writable(img) then None
    else
      RowIsJoin(img, format);
      Some(img.fileName + TripleText(img, 0, format) + TripleText(img, 1, format) + TripleText(img, 2, format))
  }

  lemma {:induction false} RowIsJoin(img: ImageData, format: real -> string)
    requires Writable(img)
    ensures img.fileName + TripleText(img, 0, format) + TripleText(img, 1, format) + TripleText(img, 2, format)
      == Text.Join(RowFields(img, format), ',')
  {
    var t0 := TripleFields(img, 0, format);
    var t1 := TripleFields(img, 1, format);
    var t2 := TripleFields(img, 2, format);
    TripleIsJoin(img, 0, format);
    TripleIsJoin(img, 1, format);
    TripleIsJoin(img, 2, format);
    JoinAppend([img.fileName], t0, ',');
    JoinAppend([img.fileName] + t0, t1, ',');
    JoinAppend([img.fileName] + t0 + t1, t2, ',');
  }

  lemma {:induction false} TripleIsJoin(img: ImageData, i: nat, format: real -> string)
    requires Writable(img) && i < 3
    ensures TripleText(img, i, format) == "," + Text.Join(TripleFields(img, i, format), ',')
  {
    var f := TripleFields(img, i, format);
    assert f[1..][1..] == [f[2]];
    assert Text.Join(f[1..], ',') == f[1] + [','] + f[2];
    assert Text.Join(f, ',') == f[0] + [','] + (f[1] + [','] + f[2]);
  }

  lemma {:induction false} JoinAppend(p: seq<string>, q: seq<string>, sep: char)
    requires |p| > 0 && |q| > 0
    ensures Text.Join(p + q, sep) == Text.Join(p, sep) + [sep] + Text.Join(q, sep)
    decreases |p|
  {
    if |p| == 1 {
      assert (p + q)[1..] == q;
    } else {
      JoinAppend(p[1..], q, sep);
      assert (p + q)[1..] == p[1..] + q;
    }
  }

  /** When no field holds a comma, the row splits back into exactly its ten
      fields. */
  lemma {:induction false} RowSplitsIntoFields(img: ImageData, format: real -> string)
    requires Writable(img)
    requires forall k :: 0 <= k < 10 ==> Text.NoSeparator(RowFields(img, format)[k], IsComma)
    ensures Text.Split(CsvRow(img, format).value, IsComma) == RowFields(img, format)
  {
    Text.SplitJoin(RowFields(img, format), ',', IsComma);
  }

  /** The rows of the images, in list order. */
  function CsvRows(images: seq<ImageData>, format: real -> string): (rows: Option<seq<string>>)
    ensures rows.Some? <==> forall i :: 0 <= i < |images| ==> Writable(images[i])
    ensures rows.Some? ==> (|rows.value| == |images|
      && forall i :: 0 <= i < |images| ==> rows.value[i] == CsvRow(images[i], format).value)
  {
    if |images| == 0 then Some([])
    else match (CsvRow(images[0], format), CsvRows(images[1..], format))
      case (Some(r), Some(rest)) =>
        assert forall i :: 1 <= i < |images| ==> images[i] == images[1..][i - 1];
        Some([r] + rest)
      case (None, _) => None
      case (_, None) =>
        assert forall i :: 0 <= i < |images| - 1 ==> images[1..][i] == images[i + 1];
        None
  }

  /** Each line followed by its line break. */
  function Lines(rows: seq<string>): string {
    if |rows| == 0 then "" else rows[0] + "\n" + Lines(rows[1..])
  }

  /** SaveToCSV's content: the header line, then one line per image. */
  function SaveToCSV(images: seq<ImageData>, format: real -> string): (csv: Option<string>)
    ensures csv.Some? <==> forall i :: 0 <= i < |images| ==> Writable(images[i])
  {
    match CsvRows(images, format)
    case None => None
    case Some(rows) => Some(Lines([CsvHeader] + rows))
  }

  lemma {:induction false} LinesIsJoin(rows: seq<string>)
    ensures Lines(rows) == Text.Join(rows + [""], '\n')
    decreases |rows|
  {
    if |rows| > 0 {
      LinesIsJoin(rows[1..]);
      assert (rows + [""])[1..] == rows[1..] + [""];
    }
  }

  /** When no cell holds a comma or a line break, the export reads back as
      the header and one ten-field record per image in list order, followed
      by the empty remainder after the final line break. */
  lemma {:induction false} CsvReadsBack(images: seq<ImageData>, format: real -> string)
    requires forall i :: 0 <= i < |images| ==> Writable(images[i])
    requires forall i, k :: 0 <= i < |images| && 0 <= k < 10 ==>
      Text.NoSeparator(RowFields(images[i], format)[k], IsComma)
      && Text.NoSeparator(RowFields(images[i], format)[k], IsNewline)
    ensures var lines := Text.Split(SaveToCSV(images, format).value, IsNewline);
      && |lines| == |images| + 2
      && lines[0] == CsvHeader
      && lines[|images| + 1] == ""
      && forall i :: 0 <= i < |images| ==> Text.Split(lines[i + 1], IsComma) == RowFields(images[i], format)
  {
    var rows := CsvRows(images, format).value;
    var all := [CsvHeader] + rows + [""];
    var lines := Text.Split(SaveToCSV(images, format).value, IsNewline);
    assert lines == all by {
      assert SaveToCSV(images, format).value == Lines([CsvHeader] + rows);
      LinesIsJoin([CsvHeader] + rows);
      HeaderIsOneLine();
      LinesAreSingle(images, format, CsvHeader, rows);
      Text.SplitJoin(all, '\n', IsNewline);
    }
    forall i | 0 <= i < |images|
      ensures Text.Split(lines[i + 1], IsComma) == RowFields(images[i], format)
    {
      assert lines[i + 1] == rows[i];
      RowSplitsIntoFields(images[i], format);
    }
  }

  /** No line of the file, the header, a row or the empty remainder, holds
      a line break. */
  lemma {:induction false} LinesAreSingle(images: seq<ImageData>, format: real -> string, header: string, rows: seq<string>)
    requires forall i :: 0 <= i < |images| ==> Writable(images[i])
    requires forall i, k :: 0 <= i < |images| && 0 <= k < 10 ==>
      Text.NoSeparator(RowFields(images[i], format)[k], IsNewline)
    requires CsvRows(images, format) == Some(rows)
    requires Text.NoSeparator(header, IsNewline)
    ensures forall k :: 0 <= k < |[header] + rows + [""]| ==>
      Text.NoSeparator(([header] + rows + [""])[k], IsNewline)
  {
    var all := [header] + rows + [""];
    forall k | 0 <= k < |all|
      ensures Text.NoSeparator(all[k], IsNewline)
    {
      if k == 0 {
      } else if k <= |rows| {
        assert all[k] == rows[k - 1];
        RowIsOneLine(images, format, rows, k - 1);
      } else {
        assert all[k] == "";
      }
    }
  }

  lemma {:induction false} RowIsOneLine(images: seq<ImageData>, format: real -> string, rows: seq<string>, i: nat)
    requires forall i :: 0 <= i < |images| ==> Writable(images[i])
    requires forall k :: 0 <= k < 10 && i < |images| ==>
      Text.NoSeparator(RowFields(images[i], format)[k], IsNewline)
    requires CsvRows(images, format) == Some(rows) && i < |rows|
    ensures Text.NoSeparator(rows[i], IsNewline)
  {
    var f := RowFields(images[i], format);
    assert rows[i] == Text.Join(f, ',');
    JoinNoSeparator(f, ',', IsNewline);
  }

  lemma {:induction false} HeaderIsOneLine()
    ensures Text.NoSeparator(CsvHeader, IsNewline)
  {
    assert Text.NoSeparator("FileName", IsNewline);
    assert Text.NoSeparator("Tag1", IsNewline);
    assert Text.NoSeparator("Score1", IsNewline);
    assert Text.NoSeparator("Tag1_JP", IsNewline);
    assert Text.NoSeparator("Tag2", IsNewline);
    assert Text.NoSeparator("Score2", IsNewline);
    assert Text.NoSeparator("Tag2_JP", IsNewline);
    assert Text.NoSeparator("Tag3", IsNewline);
    assert Text.NoSeparator("Score3", IsNewline);
    assert Text.NoSeparator("Tag3_JP", IsNewline);
    JoinNoSeparator(HeaderFields, ',', IsNewline);
  }

  /** The header reads back as the ten column names, one per row field. */
  lemma {:induction false} HeaderSplitsIntoColumns()
    ensures |HeaderFields| == 10
    ensures Text.Split(CsvHeader, IsComma) == HeaderFields
  {
    assert Text.NoSeparator("FileName", IsComma);
    assert Text.NoSeparator("Tag1", IsComma);
    assert Text.NoSeparator("Score1", IsComma);
    assert Text.NoSeparator("Tag1_JP", IsComma);
    assert Text.NoSeparator("Tag2", IsComma);
    assert Text.NoSeparator("Score2", IsComma);
    assert Text.NoSeparator("Tag2_JP", IsComma);
    assert Text.NoSeparator("Tag3", IsComma);
    assert Text.NoSeparator("Score3", IsComma);
    assert Text.NoSeparator("Tag3_JP", IsComma);
    Text.SplitJoin(HeaderFields, ',', IsComma);
  }

  lemma {:induction false} JoinNoSeparator(parts: seq<string>, sep: char, isSep: char -> bool)
    requires |parts| > 0 && !isSep(sep)
    requires forall k :: 0 <= k < |parts| ==> Text.NoSeparator(parts[k], isSep)
    ensures Text.NoSeparator(Text.Join(parts, sep), isSep)
    decreases |parts|
  {
    if |parts| > 1 {
      JoinNoSeparator(parts[1..], sep, isSep);
    }
  }
}
