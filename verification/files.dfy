/** File attachments: the upload size limit and `getFileType`. */
module Files {
  import opened Strings

  /** Files larger than this many bytes are refused. */
  const MaxFileSize: nat := 50000000

  /** What the client knows of a selected or dropped file before reading it. */
  datatype FileInfo = FileInfo(name: string, size: nat)

  predicate WithinLimit(f: FileInfo) {
    f.size <= MaxFileSize
  }

  /** The files, in order, that pass the size check. */
  function Accepted(files: seq<FileInfo>): (r: seq<FileInfo>)
    ensures forall f :: f in r ==> WithinLimit(f)
  {
    if files == [] then []
    else
      var last := files[|files| - 1];
      Accepted(files[..|files| - 1]) + (if WithinLimit(last) then [last] else [])
  }

  /** The files, in order, that are refused as too large. */
  function Rejected(files: seq<FileInfo>): (r: seq<FileInfo>)
    ensures forall f :: f in r ==> !WithinLimit(f)
  {
    if files == [] then []
    else
      var last := files[|files| - 1];
      Rejected(files[..|files| - 1]) + (if WithinLimit(last) then [] else [last])
  }

  /**
   * Every file within the limit is accepted exactly as often as it was offered,
   * and no file over the limit is accepted at all.
   */
  lemma {:induction false} AcceptedCount(files: seq<FileInfo>, f: FileInfo)
    ensures multiset(Accepted(files))[f] == if WithinLimit(f) then multiset(files)[f] else 0
  {
    if files != [] {
      var init, last := files[..|files| - 1], files[|files| - 1];
      AcceptedCount(init, f);
      assert files == init + [last];
    }
  }

  /** Every file over the limit is rejected exactly as often as it was offered, and no other file is. */
  lemma {:induction false} RejectedCount(files: seq<FileInfo>, f: FileInfo)
    ensures multiset(Rejected(files))[f] == if WithinLimit(f) then 0 else multiset(files)[f]
  {
    if files != [] {
      var init, last := files[..|files| - 1], files[|files| - 1];
      RejectedCount(init, f);
      assert files == init + [last];
      if WithinLimit(last) {
        assert Rejected(files) == Rejected(init) + [];
      }
    }
  }

  /** Every offered file is either accepted or rejected, never both. */
  lemma AcceptedAndRejectedPartition(files: seq<FileInfo>)
    ensures multiset(Accepted(files)) + multiset(Rejected(files)) == multiset(files)
  {
    forall f ensures (multiset(Accepted(files)) + multiset(Rejected(files)))[f] == multiset(files)[f] {
      AcceptedCount(files, f);
      RejectedCount(files, f);
    }
  }

  /** The limit is inclusive: one byte over is refused, one byte under is accepted. */
  lemma SizeLimitBoundary()
    ensures Accepted([FileInfo("big.mp4", 50000001), FileInfo("small.mp4", 49999999)])
         == [FileInfo("small.mp4", 49999999)]
    ensures Accepted([FileInfo("exact.mp4", 50000000)]) == [FileInfo("exact.mp4", 50000000)]
  {
  }

  const ImageExtensions: seq<string> := ["jpg", "jpeg", "png", "gif", "webp"]
  const DocumentExtensions: seq<string> := ["pdf", "doc", "docx", "txt", "rtf"]
  const AudioExtensions: seq<string> := ["mp3", "wav", "ogg", "m4a"]
  const VideoExtensions: seq<string> := ["mp4", "webm", "mov", "avi"]

  /** The category table, in the order `getFileType` searches it. */
  const FileTypeTable: seq<(string, seq<string>)> := [
    ("images", ImageExtensions),
    ("documents", DocumentExtensions),
    ("audio", AudioExtensions),
    ("video", VideoExtensions)
  ]

  /** What `getFileType` returns when no row of the table lists the extension. */
  const DefaultFileType: string := "document"

  /** The category names `getFileType` can return. */
  const FileCategories: set<string> := {"images", "documents", "audio", "video", DefaultFileType}

  /** Where the text after the last `.` starts: 0 when `name` holds no `.`. */
  function ExtensionStart(name: string): (i: nat)
    ensures i <= |name|
    ensures i > 0 ==> name[i - 1] == '.'
    ensures forall k :: i <= k < |name| ==> name[k] != '.'
  {
    if name == [] then 0
    else if name[|name| - 1] == '.' then |name|
    else ExtensionStart(name[..|name| - 1])
  }

  /** `name.split('.').pop()`: the text after the last `.`, or all of `name` when it has none. */
  function Extension(name: string): (r: string)
    ensures '.' !in r
  {
    name[ExtensionStart(name)..]
  }

  /** The search over the table: the first row listing the extension, else the default. */
  function FindCategory(table: seq<(string, seq<string>)>, extension: string): (r: string)
    ensures r == DefaultFileType || exists k :: 0 <= k < |table| && r == table[k].0
  {
    if table == [] then DefaultFileType
    else if extension in table[0].1 then table[0].0
    else FindCategory(table[1..], extension)
  }

  function CategoryOf(extension: string): (r: string)
    ensures r in FileCategories
  {
    FindCategory(FileTypeTable, extension)
  }

  /** `getFileType(fileName)`. */
  function GetFileType(fileName: string): (r: string)
    ensures r in FileCategories
  {
    CategoryOf(Extension(ToLowerAscii(fileName)))
  }

  /**
   * The tables do not overlap, so each category is returned exactly for its own
   * extensions, and `document` exactly for every other extension.
   */
  lemma CategoryOfIff(extension: string)
    ensures CategoryOf(extension) == "images" <==> extension in ImageExtensions
    ensures CategoryOf(extension) == "documents" <==> extension in DocumentExtensions
    ensures CategoryOf(extension) == "audio" <==> extension in AudioExtensions
    ensures CategoryOf(extension) == "video" <==> extension in VideoExtensions
    ensures CategoryOf(extension) == "document" <==>
      extension !in ImageExtensions + DocumentExtensions + AudioExtensions + VideoExtensions
  {
    CategoryOfCases(extension);
    ExtensionListsDisjoint();
  }

  /** The search tries the lists in the table's order. */
  lemma CategoryOfCases(extension: string)
    ensures CategoryOf(extension) ==
      if extension in ImageExtensions then "images"
      else if extension in DocumentExtensions then "documents"
      else if extension in AudioExtensions then "audio"
      else if extension in VideoExtensions then "video"
      else DefaultFileType
  {
    var t := FileTypeTable;
    assert FindCategory(t[3..], extension) == if extension in VideoExtensions then "video" else DefaultFileType;
    assert FindCategory(t[2..], extension) == if extension in AudioExtensions then "audio" else FindCategory(t[3..], extension);
    assert FindCategory(t[1..], extension) == if extension in DocumentExtensions then "documents" else FindCategory(t[2..], extension);
  }

  /** No extension is listed under two categories. */
  lemma ExtensionListsDisjoint()
    ensures forall e :: e in DocumentExtensions ==> e !in ImageExtensions
    ensures forall e :: e in AudioExtensions ==> e !in ImageExtensions && e !in DocumentExtensions
    ensures forall e :: e in VideoExtensions ==> e !in ImageExtensions && e !in DocumentExtensions && e !in AudioExtensions
  {
  }

  lemma ExtensionAfterLastDot(stem: string, extension: string)
    requires '.' !in extension
    ensures Extension(stem + ['.'] + extension) == extension
  {
    var name := stem + ['.'] + extension;
    var i := ExtensionStart(name);
    assert name[|stem|] == '.';
    assert forall k :: |stem| + 1 <= k < |name| ==> name[k] == extension[k - |stem| - 1];
    assert name[|stem| + 1..] == extension;
  }

  /** A name without a `.` is its own extension. */
  lemma ExtensionWithoutDot(name: string)
    requires '.' !in name
    ensures Extension(name) == name
  {
  }

  /** Only the text after the last `.` decides the category, whatever its letter case. */
  lemma FileTypeByExtension(stem: string, extension: string)
    requires '.' !in extension
    ensures GetFileType(stem + ['.'] + extension) == CategoryOf(ToLowerAscii(extension))
  {
    var lowered := ToLowerAscii(stem + ['.'] + extension);
    assert lowered == ToLowerAscii(stem) + ['.'] + ToLowerAscii(extension);
    assert '.' !in ToLowerAscii(extension) by {
      forall k | 0 <= k < |extension| ensures ToLowerAscii(extension)[k] != '.' {
        assert extension[k] in extension;
      }
    }
    ExtensionAfterLastDot(ToLowerAscii(stem), ToLowerAscii(extension));
  }

  /** The classification ignores the letter case of the name. */
  lemma FileTypeIgnoresCase(fileName: string)
    ensures GetFileType(ToLowerAscii(fileName)) == GetFileType(fileName)
  {
    assert ToLowerAscii(ToLowerAscii(fileName)) == ToLowerAscii(fileName);
  }

  /** A capitalised extension is classified by its lower-case form. */
  lemma FileTypeOfCapitalisedName()
    ensures GetFileType("Report.PDF") == "documents"
  {
    assert "Report.PDF" == "Report" + ['.'] + "PDF";
    FileTypeByExtension("Report", "PDF");
    assert ToLowerAscii("PDF") == "pdf";
    CategoryOfIff("pdf");
  }

  /** Only the last extension of a double extension counts. */
  lemma FileTypeOfDoubleExtension()
    ensures GetFileType("archive.tar.gz") == "document"
  {
    assert "archive.tar.gz" == "archive.tar" + ['.'] + "gz";
    FileTypeByExtension("archive.tar", "gz");
    assert ToLowerAscii("gz") == "gz";
    CategoryOfIff("gz");
  }

  /** A name without a `.` is its own extension: a file called `mp3` is audio. */
  lemma FileTypeOfNameWithoutDot()
    ensures GetFileType("mp3") == "audio"
  {
    assert ToLowerAscii("mp3") == "mp3";
    ExtensionWithoutDot("mp3");
    CategoryOfIff("mp3");
  }
}
