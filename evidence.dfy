/**
 * The uploads folder (`obtenerArchivosUploads`, `eliminarArchivoUploads`):
 * listing its regular files with a type derived from the extension, numbered
 * in directory order and sorted newest first; and deleting one file.
 */
module Evidence {
  import opened Wrappers

  /** What `fs.statSync` reports for a directory entry, or that it throws. */
  datatype Node = File(size: nat, modified: int, created: int) | Folder | Unstatable

  /** One name returned by `fs.readdirSync`, with what stat says about it. */
  datatype DirEntry = DirEntry(name: string, node: Node)

  /** The `tipo` of a listed file. */
  datatype FileType = Foto | Video | Documento

  /** One element of `archivos` in the listing (the human-readable size is not modelled). */
  datatype FileInfo = FileInfo(
    id: nat,
    fileName: string,
    fileType: FileType,
    extension: string,
    size: nat,
    created: int,
    modified: int,
    url: string)

  // ---------------------------------------------------------------------
  // Extensions
  // ---------------------------------------------------------------------

  function LowerChar(c: char): char {
    if 'A' <= c <= 'Z' then (c as int + 32) as char else c
  }

  /** `toLowerCase()`, for ASCII letters. */
  function Lower(s: string): (r: string)
    ensures |r| == |s|
    ensures forall i :: 0 <= i < |s| ==> r[i] == LowerChar(s[i])
  {
    seq(|s|, i requires 0 <= i < |s| => LowerChar(s[i]))
  }

  /** The position of the last '.' in `s`, if there is one. */
  function LastDot(s: string): (d: Option<nat>)
    ensures d.Some? ==> d.value < |s| && s[d.value] == '.' && forall j :: d.value < j < |s| ==> s[j] != '.'
    ensures d.None? ==> forall j :: 0 <= j < |s| ==> s[j] != '.'
  {
    if s == [] then None
    else if s[|s| - 1] == '.' then Some(|s| - 1)
    else LastDot(s[..|s| - 1])
  }

  /**
   * `path.extname` of a base name: from the last '.' to the end, except that
   * a name without a dot, a name whose only dot leads it (".env") and ".."
   * have no extension.
   */
  function ExtName(name: string): (e: string)
    ensures e == "" <==> (forall j :: 0 < j < |name| ==> name[j] != '.') || name == ".."
    ensures e != "" ==>
      && |e| < |name|
      && e[0] == '.'
      && name[|name| - |e|..] == e
      && forall j :: 0 < j < |e| ==> e[j] != '.'
  {
    match LastDot(name)
    case None => ""
    case Some(d) => if d == 0 || name == ".." then "" else name[d..]
  }

  /** Lower-casing does not move any dot, so it commutes with taking the extension. */
  lemma ExtNameOfLower(name: string)
    ensures ExtName(Lower(name)) == Lower(ExtName(name))
  {
    var low := Lower(name);
    assert forall j :: 0 <= j < |name| ==> (low[j] == '.' <==> name[j] == '.');
    assert LastDot(low) == LastDot(name);
    assert low == ".." <==> name == "..";
    match LastDot(name)
    case None =>
    case Some(d) =>
      assert low[d..] == Lower(name[d..]);
  }

  const PhotoExtensions: seq<string> := [".jpg", ".jpeg", ".png", ".gif", ".webp", ".bmp", ".svg"]
  const VideoExtensions: seq<string> := [".mp4", ".avi", ".mov", ".wmv", ".flv", ".mkv", ".webm"]
  const DocumentExtensions: seq<string> := [".pdf", ".doc", ".docx", ".xls", ".xlsx", ".ppt", ".pptx"]

  /** The `tipoArchivo` if-chain on a lower-cased extension. */
  function Classify(ext: string): FileType {
    if ext in PhotoExtensions then Foto
    else if ext in VideoExtensions then Video
    else if ext in DocumentExtensions then Documento
    else Documento
  }

  /**
   * The document list changes nothing: a file is a photo or a video exactly
   * when its extension is in that list, and every other extension, including
   * none at all, is a document.
   */
  lemma ClassifyByLists(ext: string)
    ensures Classify(ext) == Foto <==> ext in PhotoExtensions
    ensures Classify(ext) == Video <==> ext in VideoExtensions
    ensures Classify(ext) == Documento <==> ext !in PhotoExtensions && ext !in VideoExtensions
  {
  }

  lemma {:induction false} LowerIdempotent(s: string)
    ensures Lower(Lower(s)) == Lower(s)
  {
  }

  /** The file type does not depend on the case of the name. */
  lemma ClassificationIgnoresCase(name: string)
    ensures Classify(Lower(ExtName(Lower(name)))) == Classify(Lower(ExtName(name)))
  {
    ExtNameOfLower(name);
    LowerIdempotent(ExtName(name));
  }

  /** `s.replace('.', '')`: removes the first '.', if there is one. */
  function RemoveFirstDot(s: string): (r: string)
    ensures (forall j :: 0 <= j < |s| ==> s[j] != '.') ==> r == s
    ensures s != "" && s[0] == '.' ==> r == s[1..]
  {
    if s == [] then ""
    else if s[0] == '.' then s[1..]
    else [s[0]] + RemoveFirstDot(s[1..])
  }

  // ---------------------------------------------------------------------
  // The listing pipeline
  // ---------------------------------------------------------------------

  /** The `filter`: regular files only; entries whose stat throws are dropped too. */
  function RegularFiles(es: seq<DirEntry>): (fs: seq<DirEntry>)
    ensures |fs| <= |es|
    ensures forall i :: 0 <= i < |fs| ==> fs[i].node.File?
    ensures forall e :: e in fs <==> e in es && e.node.File?
  {
    if es == [] then []
    else
      var rest := RegularFiles(es[..|es| - 1]);
      assert es == es[..|es| - 1] + [es[|es| - 1]];
      if es[|es| - 1].node.File? then rest + [es[|es| - 1]] else rest
  }

  /** The positions in `es` of the regular files, in increasing order, all of them. */
  function FilePositions(es: seq<DirEntry>): (idx: seq<nat>)
    ensures forall k :: 0 <= k < |idx| ==> idx[k] < |es| && es[idx[k]].node.File?
    ensures forall k, l :: 0 <= k < l < |idx| ==> idx[k] < idx[l]
    ensures forall i :: 0 <= i < |es| && es[i].node.File? ==> i in idx
  {
    if es == [] then []
    else
      var init := es[..|es| - 1];
      var rest := FilePositions(init);
      assert forall i :: 0 <= i < |init| ==> init[i] == es[i];
      if es[|es| - 1].node.File? then rest + [|es| - 1] else rest
  }

  /**
   * The filter keeps directory order: the k-th regular file of the listing
   * is the entry at the k-th file position of the folder.
   */
  lemma {:induction false} RegularFilesInOrder(es: seq<DirEntry>)
    ensures |RegularFiles(es)| == |FilePositions(es)|
    ensures forall k :: 0 <= k < |RegularFiles(es)| ==> RegularFiles(es)[k] == es[FilePositions(es)[k]]
  {
    if es != [] {
      var init := es[..|es| - 1];
      var last := es[|es| - 1];
      RegularFilesInOrder(init);
      var fs, idx := RegularFiles(init), FilePositions(init);
      if last.node.File? {
        assert RegularFiles(es) == fs + [last];
        assert FilePositions(es) == idx + [|es| - 1];
        forall k | 0 <= k < |fs| ensures (fs + [last])[k] == es[(idx + [|es| - 1])[k]] {
          assert init[idx[k]] == es[idx[k]];
        }
      } else {
        assert RegularFiles(es) == fs;
        assert FilePositions(es) == idx;
        forall k | 0 <= k < |fs| ensures fs[k] == es[idx[k]] {
          assert init[idx[k]] == es[idx[k]];
        }
      }
    }
  }

  /** The `map` callback for the file at position `index` of the filtered list. */
  function Describe(e: DirEntry, index: nat): FileInfo
    requires e.node.File?
  {
    var ext := Lower(ExtName(e.name));
    FileInfo(index + 1, e.name, Classify(ext), RemoveFirstDot(ext),
             e.node.size, e.node.created, e.node.modified, "/uploads/" + e.name)
  }

  function Number(fs: seq<DirEntry>): (infos: seq<FileInfo>)
    requires forall i :: 0 <= i < |fs| ==> fs[i].node.File?
    ensures |infos| == |fs|
    ensures forall k :: 0 <= k < |fs| ==> infos[k] == Describe(fs[k], k) && infos[k].id == k + 1
  {
    seq(|fs|, i requires 0 <= i < |fs| => Describe(fs[i], i))
  }

  predicate NewestFirst(s: seq<FileInfo>) {
    forall i, j :: 0 <= i < j < |s| ==> s[i].modified >= s[j].modified
  }

  /** Places `x` after every element at least as recent, so that equal dates keep their order. */
  function InsertByDate(s: seq<FileInfo>, x: FileInfo): (r: seq<FileInfo>)
    ensures |r| == |s| + 1
    ensures multiset(r) == multiset(s) + multiset{x}
    decreases |s|
  {
    if s == [] || s[0].modified < x.modified then
      [x] + s
    else
      assert s == [s[0]] + s[1..];
      [s[0]] + InsertByDate(s[1..], x)
  }

  /** Inserting into a newest-first list keeps it newest first. */
  lemma {:induction false} InsertKeepsNewestFirst(s: seq<FileInfo>, x: FileInfo)
    requires NewestFirst(s)
    ensures NewestFirst(InsertByDate(s, x))
    decreases |s|
  {
    if s != [] && s[0].modified >= x.modified {
      var rest := InsertByDate(s[1..], x);
      InsertKeepsNewestFirst(s[1..], x);
      var r := [s[0]] + rest;
      assert InsertByDate(s, x) == r;
      forall j | 0 < j < |r| ensures r[0].modified >= r[j].modified {
        assert r[j] in rest;
        InsertedFrom(s[1..], x, r[j]);
        if r[j] != x {
          var k :| 0 <= k < |s[1..]| && s[1..][k] == r[j];
          assert s[k + 1] == r[j];
        }
      }
    }
  }

  /** The stable `sort` with comparator `b.modified - a.modified`. */
  function SortNewestFirst(s: seq<FileInfo>): (r: seq<FileInfo>)
    ensures |r| == |s|
    ensures multiset(r) == multiset(s)
    ensures NewestFirst(r)
  {
    if s == [] then []
    else
      assert s == s[..|s| - 1] + [s[|s| - 1]];
      var sorted := SortNewestFirst(s[..|s| - 1]);
      InsertKeepsNewestFirst(sorted, s[|s| - 1]);
      InsertByDate(sorted, s[|s| - 1])
  }

  /** The `archivos` of a listing of the folder entries `es`, in `readdir` order. */
  function ListFiles(es: seq<DirEntry>): seq<FileInfo> {
    SortNewestFirst(Number(RegularFiles(es)))
  }

  /** Newer first; files modified at the same time stay in numbering order. */
  predicate Before(a: FileInfo, b: FileInfo) {
    a.modified > b.modified || (a.modified == b.modified && a.id < b.id)
  }

  predicate Ordered(s: seq<FileInfo>) {
    forall i, j :: 0 <= i < j < |s| ==> Before(s[i], s[j])
  }

  predicate IdsIncreasing(s: seq<FileInfo>) {
    forall i, j :: 0 <= i < j < |s| ==> s[i].id < s[j].id
  }

  /** `x` newer than the head of an ordered list goes first, and the list stays ordered. */
  lemma InsertOrderedAtFront(s: seq<FileInfo>, x: FileInfo)
    requires Ordered(s)
    requires s == [] || s[0].modified < x.modified
    ensures Ordered(InsertByDate(s, x))
  {
    var r := [x] + s;
    assert InsertByDate(s, x) == r;
    forall i, j | 0 <= i < j < |r| ensures Before(r[i], r[j]) {
      if i == 0 {
        assert r[j] == s[j - 1];
        if j > 1 {
          assert Before(s[0], s[j - 1]);
        }
      } else {
        assert r[i] == s[i - 1] && r[j] == s[j - 1];
      }
    }
  }

  /** Every element of `InsertByDate(s, x)` is `x` or comes from `s`. */
  lemma InsertedFrom(s: seq<FileInfo>, x: FileInfo, y: FileInfo)
    requires y in InsertByDate(s, x)
    ensures y == x || y in s
  {
    assert y in multiset(InsertByDate(s, x));
  }

  lemma {:induction false} InsertOrdered(s: seq<FileInfo>, x: FileInfo)
    requires Ordered(s)
    requires forall y :: y in s ==> y.id < x.id
    ensures Ordered(InsertByDate(s, x))
    decreases |s|
  {
    if s == [] || s[0].modified < x.modified {
      InsertOrderedAtFront(s, x);
    } else {
      var tail := s[1..];
      var rest := InsertByDate(tail, x);
      forall y | y in tail ensures y.id < x.id {
        assert y in s;
      }
      InsertOrdered(tail, x);
      var r := [s[0]] + rest;
      assert InsertByDate(s, x) == r;
      assert s[0] in s;
      forall j | 0 < j < |r| ensures Before(r[0], r[j]) {
        assert r[j] in rest;
        InsertedFrom(tail, x, r[j]);
        if r[j] != x {
          var k :| 0 <= k < |tail| && tail[k] == r[j];
          assert s[k + 1] == r[j];
        }
      }
      forall i, j | 0 < i < j < |r| ensures Before(r[i], r[j]) {
        assert r[i] == rest[i - 1] && r[j] == rest[j - 1];
      }
    }
  }

  /**
   * JavaScript's sort is stable: when the input is numbered in increasing
   * order, the result is newest first and, on equal dates, in numbering order.
   */
  lemma {:induction false} SortIsStable(s: seq<FileInfo>)
    requires IdsIncreasing(s)
    ensures Ordered(SortNewestFirst(s))
  {
    if s != [] {
      var init := s[..|s| - 1];
      var x := s[|s| - 1];
      assert IdsIncreasing(init);
      SortIsStable(init);
      var sorted := SortNewestFirst(init);
      forall y | y in sorted ensures y.id < x.id {
        var k := SortedFrom(init, y);
      }
      InsertOrdered(sorted, x);
      assert SortNewestFirst(s) == InsertByDate(sorted, x);
    }
  }

  /** Sorting introduces no new element. */
  lemma SortedFrom(s: seq<FileInfo>, y: FileInfo) returns (k: nat)
    requires y in SortNewestFirst(s)
    ensures k < |s| && s[k] == y
  {
    assert y in multiset(SortNewestFirst(s));
    k :| 0 <= k < |s| && s[k] == y;
  }

  /** Some file of the listing has id `k`. */
  ghost predicate HasId(r: seq<FileInfo>, k: nat) {
    exists i :: 0 <= i < |r| && r[i].id == k
  }

  predicate NumberedInOrder(s: seq<FileInfo>) {
    forall k :: 0 <= k < |s| ==> s[k].id == k + 1
  }

  /** Every element of the sorted list is the element of the input at position id - 1. */
  lemma SortedElementsByNumber(s: seq<FileInfo>, i: nat) returns (k: nat)
    requires NumberedInOrder(s)
    requires i < |SortNewestFirst(s)|
    ensures k < |s| && SortNewestFirst(s)[i] == s[k] && s[k].id == k + 1
  {
    k := SortedFrom(s, SortNewestFirst(s)[i]);
  }

  /** Every number 1 .. n is still present after sorting. */
  lemma SortedNumberPresent(s: seq<FileInfo>, k: nat)
    requires NumberedInOrder(s)
    requires 1 <= k <= |s|
    ensures HasId(SortNewestFirst(s), k)
  {
    var r := SortNewestFirst(s);
    assert s[k - 1] in multiset(s);
    assert s[k - 1] in multiset(r);
    var i :| 0 <= i < |r| && r[i] == s[k - 1];
  }

  lemma SortedNumbersOrdered(s: seq<FileInfo>)
    requires NumberedInOrder(s)
    ensures Ordered(SortNewestFirst(s))
  {
    assert IdsIncreasing(s);
    SortIsStable(s);
  }

  /** Two positions of the sorted list carry two different numbers. */
  lemma SortedIdsDistinct(s: seq<FileInfo>, i: nat, j: nat)
    requires NumberedInOrder(s)
    requires i < j < |SortNewestFirst(s)|
    ensures SortNewestFirst(s)[i].id != SortNewestFirst(s)[j].id
  {
    var r := SortNewestFirst(s);
    SortedNumbersOrdered(s);
    var ki := SortedElementsByNumber(s, i);
    var kj := SortedElementsByNumber(s, j);
    assert Before(r[i], r[j]);
  }

  /** Sorting a list numbered 1 .. n keeps each number exactly once. */
  lemma SortKeepsNumbering(s: seq<FileInfo>)
    requires NumberedInOrder(s)
    ensures var r := SortNewestFirst(s);
      && (forall i :: 0 <= i < |r| ==> 1 <= r[i].id <= |r|)
      && (forall i, j :: 0 <= i < j < |r| ==> r[i].id != r[j].id)
      && (forall k :: 1 <= k <= |r| ==> HasId(r, k))
      && Ordered(r)
  {
    var r := SortNewestFirst(s);
    SortedNumbersOrdered(s);
    forall i | 0 <= i < |r| ensures 1 <= r[i].id <= |r| {
      var k := SortedElementsByNumber(s, i);
    }
    forall i, j | 0 <= i < j < |r| ensures r[i].id != r[j].id {
      SortedIdsDistinct(s, i, j);
    }
    forall k | 1 <= k <= |r| ensures HasId(r, k) {
      SortedNumberPresent(s, k);
    }
  }

  /**
   * The ids of a listing are the position + 1 among the regular files in
   * directory order, assigned before sorting: they are 1 .. total, each once.
   */
  lemma ListingIds(es: seq<DirEntry>)
    ensures var r := ListFiles(es);
      && |r| == |RegularFiles(es)|
      && (forall i :: 0 <= i < |r| ==> 1 <= r[i].id <= |r|)
      && (forall i, j :: 0 <= i < j < |r| ==> r[i].id != r[j].id)
      && (forall k :: 1 <= k <= |r| ==> HasId(r, k))
  {
    SortKeepsNumbering(Number(RegularFiles(es)));
  }

  /** The listing is newest first, and files with the same date keep directory order. */
  lemma ListingOrder(es: seq<DirEntry>)
    ensures Ordered(ListFiles(es))
    ensures NewestFirst(ListFiles(es))
  {
    SortKeepsNumbering(Number(RegularFiles(es)));
  }

  /** The fields that the `map` callback derives from a file's name. */
  lemma DescribedFile(e: DirEntry, index: nat)
    requires e.node.File?
    ensures var f := Describe(e, index);
      && f.fileName == e.name
      && e.node == File(f.size, f.modified, f.created)
      && f.url == "/uploads/" + f.fileName
      && (forall j :: 0 <= j < |f.extension| ==> f.extension[j] != '.')
      && f.fileType == Classify("." + f.extension)
      && (ExtName(e.name) == "" ==> f.extension == "")
      && (ExtName(e.name) != "" ==> "." + f.extension == Lower(ExtName(e.name)))
      && (f.fileType == Foto <==> Lower(ExtName(e.name)) in PhotoExtensions)
      && (f.fileType == Video <==> Lower(ExtName(e.name)) in VideoExtensions)
  {
    var ext := Lower(ExtName(e.name));
    ClassifyByLists(ext);
    if ExtName(e.name) != "" {
      assert ext[0] == '.';
      assert "." + ext[1..] == ext;
      forall j | 0 <= j < |ext| - 1 ensures ext[1..][j] != '.' {
        assert ext[j + 1] == LowerChar(ExtName(e.name)[j + 1]);
      }
    } else {
      assert RemoveFirstDot(ext) == "";
      assert "." !in PhotoExtensions && "." !in VideoExtensions && "." !in DocumentExtensions;
    }
  }

  /**
   * Each listed file is a regular file of the folder, reported with its own
   * size and dates; its url is '/uploads/' + its name, its extension has no
   * dot, and its type is what the dotted extension classifies to.
   */
  lemma ListedFile(es: seq<DirEntry>, i: nat)
    requires i < |ListFiles(es)|
    ensures var f := ListFiles(es)[i];
      && DirEntry(f.fileName, File(f.size, f.modified, f.created)) in es
      && f.url == "/uploads/" + f.fileName
      && (forall j :: 0 <= j < |f.extension| ==> f.extension[j] != '.')
      && f.fileType == Classify("." + f.extension)
      && (ExtName(f.fileName) == "" ==> f.extension == "")
      && (ExtName(f.fileName) != "" ==> "." + f.extension == Lower(ExtName(f.fileName)))
      && (f.fileType == Foto <==> Lower(ExtName(f.fileName)) in PhotoExtensions)
      && (f.fileType == Video <==> Lower(ExtName(f.fileName)) in VideoExtensions)
  {
    var fs := RegularFiles(es);
    var numbered := Number(fs);
    var k := SortedElementsByNumber(numbered, i);
    var e := fs[k];
    assert ListFiles(es)[i] == Describe(e, k);
    DescribedFile(e, k);
    assert e in fs;
  }

  // ---------------------------------------------------------------------
  // The folder
  // ---------------------------------------------------------------------

  /** The folder as a map from name to what stat says; a later duplicate would win. */
  function DirMap(es: seq<DirEntry>): map<string, Node> {
    if es == [] then map[] else DirMap(es[..|es| - 1])[es[|es| - 1].name := es[|es| - 1].node]
  }

  predicate DistinctNames(es: seq<DirEntry>) {
    forall i, j :: 0 <= i < j < |es| ==> es[i].name != es[j].name
  }

  /** The entries after unlinking `name`: the others, in the same order. */
  function Without(es: seq<DirEntry>, name: string): seq<DirEntry> {
    if es == [] then []
    else
      var rest := Without(es[..|es| - 1], name);
      if es[|es| - 1].name == name then rest else rest + [es[|es| - 1]]
  }

  /** The entries kept are exactly those with another name. */
  lemma {:induction false} WithoutMembers(es: seq<DirEntry>, name: string)
    ensures forall e :: e in Without(es, name) <==> e in es && e.name != name
  {
    if es != [] {
      WithoutMembers(es[..|es| - 1], name);
      assert es == es[..|es| - 1] + [es[|es| - 1]];
    }
  }

  /** Appending an entry sets its name in the folder map. */
  lemma DirMapSnoc(es: seq<DirEntry>, e: DirEntry)
    ensures DirMap(es + [e]) == DirMap(es)[e.name := e.node]
  {
    assert (es + [e])[..|es|] == es;
  }

  /** Deleting a name removes exactly that entry from the folder map. */
  lemma {:induction false} WithoutRemovesOnlyName(es: seq<DirEntry>, name: string)
    ensures DirMap(Without(es, name)) == DirMap(es) - {name}
  {
    if es != [] {
      var init := es[..|es| - 1];
      var last := es[|es| - 1];
      var rest := Without(init, name);
      WithoutRemovesOnlyName(init, name);
      var before := DirMap(init);
      assert DirMap(es) == before[last.name := last.node];
      if last.name == name {
        assert Without(es, name) == rest;
        assert before[name := last.node] - {name} == before - {name};
      } else {
        assert Without(es, name) == rest + [last];
        DirMapSnoc(rest, last);
        assert (before - {name})[last.name := last.node] == before[last.name := last.node] - {name};
      }
    }
  }

  /** Deleting keeps the names of the folder distinct. */
  lemma {:induction false} WithoutKeepsNamesDistinct(es: seq<DirEntry>, name: string)
    requires DistinctNames(es)
    ensures DistinctNames(Without(es, name))
  {
    if es != [] {
      var init := es[..|es| - 1];
      var last := es[|es| - 1];
      WithoutKeepsNamesDistinct(init, name);
      if last.name != name {
        var rest := Without(init, name);
        WithoutMembers(init, name);
        forall y | y in rest ensures y.name != last.name {
          var k :| 0 <= k < |init| && init[k] == y;
          assert es[k] == y;
        }
        var r := rest + [last];
        forall i, j | 0 <= i < j < |r| ensures r[i].name != r[j].name {
          if j == |r| - 1 {
            assert r[i] in rest;
          } else {
            assert r[i] == rest[i] && r[j] == rest[j];
          }
        }
      }
    }
  }

  /** `fs.existsSync` on an entry of the folder: it is listed and stat succeeds. */
  predicate ExistsIn(es: seq<DirEntry>, name: string) {
    name in DirMap(es) && DirMap(es)[name] != Unstatable
  }

  /** `path.join(uploads, name)` names the folder itself. */
  predicate DenotesFolder(name: string) {
    name == "" || name == "."
  }

  /** `path.join(uploads, name)` names the folder's parent, a directory that always exists. */
  predicate DenotesParent(name: string) {
    name == ".."
  }

  datatype ListReply = Listed(total: nat, files: seq<FileInfo>) | ListFailed(message: string) {
    function Status(): nat {
      if Listed? then 200 else 500
    }
  }

  datatype DeleteReply = Deleted(fileName: string) | FileNotFound | NotAFile | DeleteFailed(message: string) {
    function Status(): nat {
      match this
      case Deleted(_) => 200
      case FileNotFound => 404
      case NotAFile => 400
      case DeleteFailed(_) => 500
    }
  }

  /** The uploads folder: whether it exists and its entries in `readdir` order. */
  class UploadsFolder {
    var present: bool
    var entries: seq<DirEntry>

    ghost predicate Valid()
      reads this
    {
      (!present ==> entries == []) && DistinctNames(entries)
    }

    constructor (present: bool, entries: seq<DirEntry>)
      requires present || entries == []
      requires DistinctNames(entries)
      ensures Valid()
      ensures this.present == present && this.entries == entries
    {
      this.present := present;
      this.entries := entries;
    }

    /**
     * GET the listing. `ioFailure` is the message of the error that
     * `mkdirSync` or `readdirSync` throws, if one does. A missing folder is
     * created and reported empty.
     */
    method ListUploads(ioFailure: Option<string>) returns (reply: ListReply)
      requires Valid()
      modifies this
      ensures Valid()
      ensures entries == old(entries)
      ensures !old(present) ==>
        && present == ioFailure.None?
        && reply == (if ioFailure.None? then Listed(0, []) else ListFailed(ioFailure.value))
      ensures old(present) ==>
        && present
        && reply == (if ioFailure.None? then Listed(|ListFiles(entries)|, ListFiles(entries)) else ListFailed(ioFailure.value))
      ensures reply.Listed? ==> reply.total == |reply.files|
    {
      if !present {
        if ioFailure.Some? {
          return ListFailed(ioFailure.value);
        }
        present := true;
        return Listed(0, []);
      }
      if ioFailure.Some? {
        return ListFailed(ioFailure.value);
      }
      var files := ListFiles(entries);
      reply := Listed(|files|, files);
    }

    /**
     * DELETE one file by name. `unlinkFailure` is the message of the error
     * `unlinkSync` throws, if it does. Only a regular file is removed, and
     * nothing else in the folder changes.
     */
    method DeleteUpload(name: string, unlinkFailure: Option<string>) returns (reply: DeleteReply)
      requires Valid()
      requires '/' !in name
      modifies this
      ensures Valid()
      ensures present == old(present)
      ensures DenotesParent(name) ==> entries == old(entries) && reply == NotAFile
      ensures DenotesFolder(name) ==>
        entries == old(entries) && reply == (if present then NotAFile else FileNotFound)
      ensures !DenotesParent(name) && !DenotesFolder(name) && !ExistsIn(old(entries), name) ==>
        entries == old(entries) && reply == FileNotFound
      ensures !DenotesParent(name) && !DenotesFolder(name) && ExistsIn(old(entries), name) && !DirMap(old(entries))[name].File? ==>
        entries == old(entries) && reply == NotAFile
      ensures !DenotesParent(name) && !DenotesFolder(name) && ExistsIn(old(entries), name) && DirMap(old(entries))[name].File? ==>
        if unlinkFailure.Some? then
          entries == old(entries) && reply == DeleteFailed(unlinkFailure.value)
        else
          && entries == Without(old(entries), name)
          && DirMap(entries) == DirMap(old(entries)) - {name}
          && reply == Deleted(name)
    {
      if DenotesParent(name) {
        return NotAFile;
      }
      if DenotesFolder(name) {
        if !present {
          return FileNotFound;
        }
        return NotAFile;
      }
      if !ExistsIn(entries, name) {
        return FileNotFound;
      }
      if !DirMap(entries)[name].File? {
        return NotAFile;
      }
      if unlinkFailure.Some? {
        return DeleteFailed(unlinkFailure.value);
      }
      WithoutRemovesOnlyName(entries, name);
      WithoutKeepsNamesDistinct(entries, name);
      entries := Without(entries, name);
      reply := Deleted(name);
    }
  }
}
