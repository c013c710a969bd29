/**
 * Construction of the set of files to send (files/files.go).
 *
 * The file system is an input: glob expansion, `os.Lstat`, `filepath.Abs`,
 * the entries `filepath.Walk` visits and the empty-folder test are answers an
 * oracle gives. Paths use the Unix separator '/'.
 */
module Files {
  import opened Wrappers
  import opened StringTools

  /** Metadata of one file to transfer; also the payload of a FileInfo message. */
  datatype FileInfo = FileInfo(
    name: string,
    folderRemote: string,
    folderSource: string,
    size: int,
    modTime: int,
    isCompressed: bool,
    isEncrypted: bool,
    symlink: string,
    mode: int,
    tempFile: bool)

  datatype Files = Files(
    filesInfo: seq<FileInfo>,
    emptyFolders: seq<FileInfo>,
    totalNumberFolders: int)

  /** What `os.Lstat` reports about a path (modification time in milliseconds). */
  datatype Stat = Stat(isDir: bool, size: int, modTime: int, mode: int)

  /** One call of the walk function: the visited path and its Lstat information. */
  datatype WalkEntry = WalkEntry(pathName: string, info: Stat)

  /**
   * The file system as seen by `GetFilesInfo`. `walk(root)` lists, in visiting
   * order, every path `filepath.Walk` hands to the callback (the root first), or
   * the error that made the callback abort. `lstat` answers for the state after
   * any zip archive has been written.
   */
  datatype FileSystem = FileSystem(
    glob: string -> Result<seq<string>>,
    lstat: string -> Result<Stat>,
    abs: string -> Result<string>,
    walk: string -> Result<seq<WalkEntry>>,
    isEmptyFolder: string -> bool)

  const Separator: char := '/'

  // ---------------------------------------------------------------------------
  // Path helpers (path/filepath on a Unix system)
  // ---------------------------------------------------------------------------

  function StripTrailingSlashes(p: string): (r: string)
    ensures |r| <= |p| && r == p[..|r|]
    ensures r == [] || r[|r| - 1] != Separator
    ensures forall i :: |r| <= i < |p| ==> p[i] == Separator
  {
    TrimRight(p, c => c == Separator)
  }

  /** Index of the last separator in `p`, if any. */
  function LastSlash(p: string): (r: Option<nat>)
    ensures r.Some? ==> r.value < |p| && p[r.value] == Separator
                        && forall i :: r.value < i < |p| ==> p[i] != Separator
    ensures r.None? ==> forall i :: 0 <= i < |p| ==> p[i] != Separator
    decreases |p|
  {
    if |p| == 0 then None
    else if p[|p| - 1] == Separator then Some(|p| - 1)
    else LastSlash(p[..|p| - 1])
  }

  /** The pieces of `p` between separators, in order, empty ones included. */
  function Elements(p: string): (r: seq<string>)
    ensures |r| > 0
    ensures forall k :: 0 <= k < |r| ==> Separator !in r[k]
    decreases |p|
  {
    match LastSlash(p)
    case None => [p]
    case Some(i) =>
      var last := p[i + 1..];
      assert forall j :: 0 <= j < |last| ==> last[j] == p[i + 1 + j];
      Elements(p[..i]) + [last]
  }

  /** Splitting at the separators and joining back with them gives the path again. */
  lemma {:induction false} ElementsJoined(p: string)
    ensures Joined(Elements(p), [Separator]) == p
    decreases |p|
  {
    match LastSlash(p)
    case None =>
    case Some(i) =>
      ElementsJoined(p[..i]);
      JoinedSnoc(Elements(p[..i]), p[i + 1..], [Separator]);
      assert p == p[..i] + [Separator] + p[i + 1..];
  }

  /** Joining pieces that hold no separator and splitting again gives the pieces back. */
  lemma {:induction false} JoinedElements(parts: seq<string>)
    requires |parts| > 0
    requires forall k :: 0 <= k < |parts| ==> Separator !in parts[k]
    ensures Elements(Joined(parts, [Separator])) == parts
    decreases |parts|
  {
    if |parts| == 1 {
      assert LastSlash(parts[0]).None?;
    } else {
      var front := parts[..|parts| - 1];
      var last := parts[|parts| - 1];
      assert parts == front + [last];
      JoinedSnoc(front, last, [Separator]);
      var x := Joined(front, [Separator]);
      LastSlashAfter(x, last);
      var q := x + [Separator] + last;
      assert q[..|x|] == x && q[|x| + 1..] == last;
      JoinedElements(front);
    }
  }

  /** An element a cleaned path can hold: not empty, not ".", without separator. */
  predicate IsCleanElement(e: string) {
    e != "" && e != "." && Separator !in e
  }

  /**
   * The elements of a cleaned path: every one is clean, ".." occurs only before
   * every other element, and never in a rooted path.
   */
  predicate IsCleanStack(stack: seq<string>, rooted: bool) {
    && (forall k :: 0 <= k < |stack| ==> IsCleanElement(stack[k]))
    && (forall j, k :: 0 <= j < k < |stack| && stack[k] == ".." ==> stack[j] == "..")
    && (rooted ==> ".." !in stack)
  }

  /**
   * One element of `filepath.Clean`'s scan: empty elements and "." vanish,
   * ".." removes the previous element unless that is a ".." itself (kept in a
   * relative path, dropped at the root), anything else is appended.
   */
  function Push(stack: seq<string>, e: string, rooted: bool): seq<string> {
    if e == "" || e == "." then stack
    else if e == ".." then
      if |stack| > 0 && stack[|stack| - 1] != ".." then stack[..|stack| - 1]
      else if rooted then stack
      else stack + [".."]
    else stack + [e]
  }

  lemma PushKeepsClean(stack: seq<string>, e: string, rooted: bool)
    requires IsCleanStack(stack, rooted) && Separator !in e
    ensures IsCleanStack(Push(stack, e, rooted), rooted)
  {
    if e == ".." && !(|stack| > 0 && stack[|stack| - 1] != "..") && !rooted {
      var s' := stack + [".."];
      forall j, k | 0 <= j < k < |s'| && s'[k] == ".."
        ensures s'[j] == ".."
      {
        if k == |stack| && j < |stack| - 1 {
          assert stack[|stack| - 1] == "..";
        }
      }
    }
  }

  /** A clean element appended to a clean stack stays where it is. */
  lemma PushClean(stack: seq<string>, e: string, rooted: bool)
    requires IsCleanStack(stack + [e], rooted)
    ensures Push(stack, e, rooted) == stack + [e]
  {
    var s' := stack + [e];
    assert s'[|stack|] == e;
    if e == ".." && |stack| > 0 {
      assert s'[|stack| - 1] == "..";
    }
  }

  /** The elements that survive `filepath.Clean`'s scan of `elems`. */
  function Reduce(elems: seq<string>, rooted: bool): (r: seq<string>)
    requires forall k :: 0 <= k < |elems| ==> Separator !in elems[k]
    ensures IsCleanStack(r, rooted)
    decreases |elems|
  {
    if elems == [] then []
    else
      var front := elems[..|elems| - 1];
      assert forall k :: 0 <= k < |front| ==> front[k] == elems[k];
      var s := Reduce(front, rooted);
      PushKeepsClean(s, elems[|elems| - 1], rooted);
      Push(s, elems[|elems| - 1], rooted)
  }

  /** After elements that vanish, a clean stack comes through unchanged. */
  lemma {:induction false} ReduceKeepsClean(lead: seq<string>, stack: seq<string>, rooted: bool)
    requires forall k :: 0 <= k < |lead| ==> Separator !in lead[k]
    requires Reduce(lead, rooted) == [] && IsCleanStack(stack, rooted)
    ensures Reduce(lead + stack, rooted) == stack
    decreases |stack|
  {
    if stack == [] {
      assert lead + stack == lead;
    } else {
      var front := stack[..|stack| - 1];
      var e := stack[|stack| - 1];
      assert stack == front + [e];
      assert (lead + stack)[..|lead + stack| - 1] == lead + front;
      ReduceKeepsClean(lead, front, rooted);
      PushClean(front, e, rooted);
    }
  }

  /**
   * The text of a cleaned path from its elements: "/" before them when rooted,
   * "." for a relative path with none.
   */
  function Render(stack: seq<string>, rooted: bool): (r: string)
    requires IsCleanStack(stack, rooted)
    ensures r != []
    ensures r[0] == Separator <==> rooted
  {
    if rooted then [Separator] + Joined(stack, [Separator])
    else if stack == [] then "."
    else
      JoinedStart(stack);
      assert stack[0][0] in stack[0];
      Joined(stack, [Separator])
  }

  /**
   * `filepath.Clean`: the shortest lexically equivalent path. Empty elements and
   * "." are dropped, ".." cancels the element before it, a rooted path stays
   * rooted and never climbs above the root, and the empty result is ".".
   */
  function Clean(p: string): (r: string)
    ensures r != []
    ensures r[0] == Separator <==> p != [] && p[0] == Separator
  {
    if p == [] then "."
    else
      var rooted := p[0] == Separator;
      Render(Reduce(Elements(p), rooted), rooted)
  }

  /** A non-empty list of parts joined by separators starts with its first part. */
  lemma JoinedStart(stack: seq<string>)
    requires |stack| > 0
    ensures stack[0] <= Joined(stack, [Separator])
  {
  }

  /** A trailing separator makes no difference to the cleaned path. */
  lemma CleanTrailingSlash(p: string)
    requires p != []
    ensures Clean(p + [Separator]) == Clean(p)
  {
    var q := p + [Separator];
    assert LastSlash(q) == Some(|p|);
    assert q[..|p|] == p && q[|p| + 1..] == "";
    var es := Elements(p) + [""];
    assert Elements(q) == es;
    assert es[..|es| - 1] == Elements(p);
  }

  /** Cleaning a cleaned path changes nothing. */
  lemma CleanIdempotent(p: string)
    ensures Clean(Clean(p)) == Clean(p)
  {
    if p == [] {
      CleanDot();
    } else {
      var rooted := p[0] == Separator;
      RenderIsClean(Reduce(Elements(p), rooted), rooted);
    }
  }

  /** A path rendered from clean elements is its own cleaned form. */
  lemma RenderIsClean(stack: seq<string>, rooted: bool)
    requires IsCleanStack(stack, rooted)
    ensures Clean(Render(stack, rooted)) == Render(stack, rooted)
  {
    if stack == [] && !rooted {
      CleanDot();
    } else if stack == [] {
      CleanRoot();
    } else if rooted {
      RenderRootedIsClean(stack);
    } else {
      RenderRelativeIsClean(stack);
    }
  }

  lemma RenderRootedIsClean(stack: seq<string>)
    requires IsCleanStack(stack, true) && stack != []
    ensures Clean(Render(stack, true)) == Render(stack, true)
  {
    var parts := [""] + stack;
    assert parts[1..] == stack;
    assert Joined(parts, [Separator]) == Render(stack, true);
    JoinedElements(parts);
    assert Reduce([""], true) == [];
    ReduceKeepsClean([""], stack, true);
  }

  lemma RenderRelativeIsClean(stack: seq<string>)
    requires IsCleanStack(stack, false) && stack != []
    ensures Clean(Render(stack, false)) == Render(stack, false)
  {
    JoinedElements(stack);
    assert [] + stack == stack;
    ReduceKeepsClean([], stack, false);
  }

  lemma CleanDot()
    ensures Clean(".") == "."
  {
    assert LastSlash(".") == None;
    assert Elements(".") == ["."];
    assert Reduce(["."], false) == [];
  }

  lemma CleanRoot()
    ensures Clean([Separator]) == [Separator]
  {
    var q: string := [Separator];
    assert LastSlash(q) == Some(0);
    assert q[..0] == "" && q[1..] == "";
    assert Elements("") == [""];
    assert Elements(q) == ["", ""];
    assert ["", ""][..1] == [""];
    assert Reduce(["", ""], true) == [];
  }

  /** The parts `path.Join` uses: the non-empty ones, in order. */
  function NonEmptyParts(parts: seq<string>): (r: seq<string>)
    ensures forall p :: p in r <==> p in parts && p != []
    ensures forall p :: p != [] ==> multiset(r)[p] == multiset(parts)[p]
    ensures |r| == 0 <==> forall k :: 0 <= k < |parts| ==> parts[k] == []
    decreases |parts|
  {
    if parts == [] then []
    else
      assert parts == [parts[0]] + parts[1..];
      if parts[0] == [] then NonEmptyParts(parts[1..])
      else [parts[0]] + NonEmptyParts(parts[1..])
  }

  /** Dropping the empty parts keeps the order: it distributes over concatenation. */
  lemma {:induction false} NonEmptyPartsAppend(a: seq<string>, b: seq<string>)
    ensures NonEmptyParts(a + b) == NonEmptyParts(a) + NonEmptyParts(b)
    decreases |a|
  {
    if a == [] {
      assert a + b == b;
    } else {
      assert (a + b)[0] == a[0] && (a + b)[1..] == a[1..] + b;
      NonEmptyPartsAppend(a[1..], b);
    }
  }

  /**
   * Parts that are single clean elements other than "..", with empty parts
   * anywhere between them, are joined without any cleaning: the result is the
   * non-empty parts with a separator between each two.
   */
  lemma JoinCleanParts(parts: seq<string>)
    requires forall k :: 0 <= k < |parts| ==> parts[k] == [] || (IsCleanElement(parts[k]) && parts[k] != "..")
    requires exists k :: 0 <= k < |parts| && parts[k] != []
    ensures Join(parts) == Joined(NonEmptyParts(parts), [Separator])
  {
    var ne := NonEmptyParts(parts);
    assert forall k :: 0 <= k < |ne| ==> ne[k] in parts;
    assert IsCleanStack(ne, false);
    RenderIsClean(ne, false);
  }

  /**
   * `path.Join`: the non-empty parts joined by separators, then cleaned; the
   * empty string when every part is empty.
   */
  function Join(parts: seq<string>): (r: string)
    ensures r == [] <==> forall k :: 0 <= k < |parts| ==> parts[k] == []
    ensures r != [] ==> r == Clean(r)
  {
    var ne := NonEmptyParts(parts);
    if ne == [] then ""
    else
      CleanIdempotent(Joined(ne, [Separator]));
      Clean(Joined(ne, [Separator]))
  }

  /**
   * `filepath.Dir`: everything up to the last separator, cleaned; "." when
   * there is no separator.
   */
  function Dir(p: string): (r: string)
    ensures r == Clean(r)
  {
    match LastSlash(p)
    case None =>
      CleanDot();
      "."
    case Some(i) =>
      CleanIdempotent(p[..i + 1]);
      Clean(p[..i + 1])
  }

  /** `filepath.Base`: the last element, ignoring trailing separators. */
  function Base(p: string): string {
    if p == [] then "."
    else
      var q := StripTrailingSlashes(p);
      if q == [] then [Separator]
      else match LastSlash(q)
        case None => q
        case Some(i) => q[i + 1..]
  }

  /** `strings.TrimPrefix`. */
  function TrimPrefix(s: string, prefix: string): (r: string)
    ensures prefix <= s ==> s == prefix + r
    ensures !(prefix <= s) ==> r == s
  {
    if prefix <= s then s[|prefix|..] else s
  }

  predicate HasWildcard(s: string) {
    '*' in s
  }

  // ---------------------------------------------------------------------------
  // GetFilesInfo
  // ---------------------------------------------------------------------------

  function Flatten<T>(xs: seq<seq<T>>): seq<T>
    decreases |xs|
  {
    if |xs| == 0 then [] else xs[0] + Flatten(xs[1..])
  }

  /** What one argument contributes to the list of paths, once globbed. */
  function ArgumentPaths(fs: FileSystem, fName: string): Result<seq<string>> {
    if HasWildcard(fName) then fs.glob(fName) else Ok([fName])
  }

  /**
   * The first loop of `GetFilesInfo`: arguments containing '*' are replaced by
   * their glob matches, the others are kept, in argument order; the first glob
   * error aborts.
   */
  function ExpandArguments(fs: FileSystem, fNames: seq<string>): (r: Result<seq<string>>)
    ensures r.Ok? <==> forall i :: 0 <= i < |fNames| ==> ArgumentPaths(fs, fNames[i]).Ok?
    ensures r.Ok? ==> r.value == Flatten(seq(|fNames|, i requires 0 <= i < |fNames| => ArgumentPaths(fs, fNames[i]).value))
    ensures r.Err? ==> exists i :: 0 <= i < |fNames| && ArgumentPaths(fs, fNames[i]) == Err(r.error)
                                   && forall j :: 0 <= j < i ==> ArgumentPaths(fs, fNames[j]).Ok?
    decreases |fNames|
  {
    if |fNames| == 0 then Ok([])
    else
      match ArgumentPaths(fs, fNames[0])
      case Err(e) => Err(e)
      case Ok(head) =>
        match ExpandArguments(fs, fNames[1..])
        case Err(e) =>
          assert forall j :: 0 <= j < |fNames| - 1 ==> fNames[1..][j] == fNames[j + 1];
          Err(e)
        case Ok(tail) =>
          assert seq(|fNames|, i requires 0 <= i < |fNames| => ArgumentPaths(fs, fNames[i]).value)[1..]
              == seq(|fNames| - 1, i requires 0 <= i < |fNames| - 1 => ArgumentPaths(fs, fNames[1..][i]).value);
          Ok(head + tail)
  }

  /** Entry for a plain file: lives at the top of the destination. */
  function SingleFileEntry(path: string, absPath: string, stat: Stat): FileInfo {
    FileInfo(Base(path), "./", Dir(absPath), stat.size, stat.modTime,
             false, false, "", stat.mode, false)
  }

  /** The name of the archive a folder is zipped into: its base name plus ".zip". */
  function ZipDestination(path: string): (z: string)
    ensures |z| >= 4 && z[|z| - 4..] == ".zip"
  {
    var withSlash := if path == [] || path[|path| - 1] != Separator then path + [Separator] else path;
    Base(Dir(withSlash)) + ".zip"
  }

  /** The archive is named after the last element of the cleaned folder path. */
  lemma ZipDestinationClean(path: string)
    requires path != []
    ensures ZipDestination(path) == Base(Clean(path)) + ".zip"
  {
    var withSlash := if path[|path| - 1] != Separator then path + [Separator] else path;
    assert LastSlash(withSlash) == Some(|withSlash| - 1);
    assert withSlash[..|withSlash|] == withSlash;
    if withSlash != path {
      CleanTrailingSlash(path);
    }
  }

  /** "<e>/./" is zipped into "<e>.zip": the "." element does not count. */
  lemma ZipDestinationDotElement(e: string)
    requires IsCleanElement(e)
    ensures ZipDestination(e + "/./") == e + ".zip"
  {
    var p := e + "/./";
    ZipDestinationClean(p);
    CleanDotElement(e);
    BaseOfElement(e);
  }

  lemma CleanDotElement(e: string)
    requires IsCleanElement(e)
    ensures Clean(e + "/./") == e
  {
    var p := e + "/./";
    ElementsDotSuffix(e);
    ReduceDotSuffix(e);
    assert p[0] == e[0] && e[0] in e;
    assert Render([e], false) == e;
  }

  lemma ElementsDotSuffix(e: string)
    requires IsCleanElement(e)
    ensures Elements(e + "/./") == [e, ".", ""]
  {
    var p := e + "/./";
    var q := e + "/.";
    LastSlashAfter(q, "");
    assert q + [Separator] + "" == p;
    assert p[..|q|] == q && p[|q| + 1..] == "";
    LastSlashAfter(e, ".");
    assert q == e + [Separator] + ".";
    assert LastSlash(q) == Some(|e|);
    assert q[..|e|] == e && q[|e| + 1..] == ".";
    assert e[0] in e;
    assert LastSlash(e) == None;
    assert Elements(e) == [e];
    assert Elements(q) == [e] + ["."];
    assert Elements(p) == Elements(q) + [""];
  }

  lemma ReduceDotSuffix(e: string)
    requires IsCleanElement(e)
    ensures Reduce([e, ".", ""], false) == [e]
  {
    var es := [e, ".", ""];
    assert es[..2] == [e, "."] && [e, "."][..1] == [e] && [e][..0] == [];
    assert Reduce([], false) == [];
    assert Reduce([e], false) == Push([], e, false) == [e];
    assert Reduce([e, "."], false) == Push([e], ".", false) == [e];
  }

  /** A single element is its own base name. */
  lemma BaseOfElement(e: string)
    requires e != [] && Separator !in e
    ensures Base(e) == e
  {
    assert e[|e| - 1] in e;
    assert LastSlash(e) == None;
  }

  /** The folder's path relative to the parent of the folder being sent. */
  function RemoteFolderOf(dirName: string, absRoot: string): string {
    TrimPrefix(dirName, Dir(absRoot) + [Separator]) + "/"
  }

  /** The entry recording an empty folder: only its remote folder is set. */
  function EmptyFolderEntry(pathName: string, absRoot: string): FileInfo {
    FileInfo("", RemoteFolderOf(pathName, absRoot), "", 0, 0, false, false, "", 0, false)
  }

  /** A visited entry that is a folder without children. */
  predicate IsEmptyFolderEntry(fs: FileSystem, e: WalkEntry) {
    e.info.isDir && fs.isEmptyFolder(e.pathName)
  }

  /** What one visited walk entry adds to the file set. */
  function WalkStep(fs: FileSystem, absRoot: string, e: WalkEntry, acc: Files): (r: Files)
    ensures !e.info.isDir ==>
              && r.emptyFolders == acc.emptyFolders && r.totalNumberFolders == acc.totalNumberFolders
              && |r.filesInfo| == |acc.filesInfo| + 1 && r.filesInfo[..|acc.filesInfo|] == acc.filesInfo
              && r.filesInfo[|acc.filesInfo|].name == Base(e.pathName)
              && r.filesInfo[|acc.filesInfo|].folderSource == Dir(e.pathName)
    ensures e.info.isDir ==>
              && r.filesInfo == acc.filesInfo && r.totalNumberFolders == acc.totalNumberFolders + 1
              && r.emptyFolders == acc.emptyFolders + EmptyFolderOf(fs, absRoot, e)
  {
    if !e.info.isDir then
      acc.(filesInfo := acc.filesInfo + [
             FileInfo(Base(e.pathName), RemoteFolderOf(Dir(e.pathName), absRoot), Dir(e.pathName),
                      e.info.size, e.info.modTime, false, false, "", e.info.mode, false)])
    else
      var acc' := acc.(totalNumberFolders := acc.totalNumberFolders + 1);
      if fs.isEmptyFolder(e.pathName) then
        acc'.(emptyFolders := acc'.emptyFolders + [EmptyFolderEntry(e.pathName, absRoot)])
      else acc'
  }

  function WalkAll(fs: FileSystem, absRoot: string, entries: seq<WalkEntry>, acc: Files): Files
    decreases |entries|
  {
    if |entries| == 0 then acc else WalkAll(fs, absRoot, entries[1..], WalkStep(fs, absRoot, entries[0], acc))
  }

  function CountDirs(entries: seq<WalkEntry>): nat
    decreases |entries|
  {
    if |entries| == 0 then 0 else (if entries[0].info.isDir then 1 else 0) + CountDirs(entries[1..])
  }

  function CountFiles(entries: seq<WalkEntry>): nat
    decreases |entries|
  {
    if |entries| == 0 then 0 else (if entries[0].info.isDir then 0 else 1) + CountFiles(entries[1..])
  }

  /**
   * Every visited directory, the sent folder included, adds one to the folder
   * count; every non-directory adds one file entry, and nothing else is added.
   */
  lemma {:induction false} WalkCounts(fs: FileSystem, absRoot: string, entries: seq<WalkEntry>, acc: Files)
    ensures WalkAll(fs, absRoot, entries, acc).totalNumberFolders == acc.totalNumberFolders + CountDirs(entries)
    ensures |WalkAll(fs, absRoot, entries, acc).filesInfo| == |acc.filesInfo| + CountFiles(entries)
    ensures |WalkAll(fs, absRoot, entries, acc).emptyFolders| <= |acc.emptyFolders| + CountDirs(entries)
    ensures WalkAll(fs, absRoot, entries, acc).filesInfo[..|acc.filesInfo|] == acc.filesInfo
    decreases |entries|
  {
    if |entries| > 0 {
      var acc' := WalkStep(fs, absRoot, entries[0], acc);
      WalkCounts(fs, absRoot, entries[1..], acc');
      assert acc'.filesInfo[..|acc.filesInfo|] == acc.filesInfo;
    }
  }

  /**
   * The empty folders recorded by the walk are the earlier ones followed by
   * one entry per visited folder without children, and nothing else.
   */
  lemma WalkEmptyFolders(fs: FileSystem, absRoot: string, entries: seq<WalkEntry>, acc: Files)
    ensures var w := WalkAll(fs, absRoot, entries, acc);
            && |acc.emptyFolders| <= |w.emptyFolders|
            && w.emptyFolders[..|acc.emptyFolders|] == acc.emptyFolders
            && (forall i :: 0 <= i < |entries| && IsEmptyFolderEntry(fs, entries[i]) ==>
                  EmptyFolderEntry(entries[i].pathName, absRoot) in w.emptyFolders)
            && (forall e :: e in w.emptyFolders ==>
                  e in acc.emptyFolders
                  || exists i :: 0 <= i < |entries| && IsEmptyFolderEntry(fs, entries[i])
                                 && e == EmptyFolderEntry(entries[i].pathName, absRoot))
  {
    var w := WalkAll(fs, absRoot, entries, acc);
    var added := EmptyFoldersOf(fs, absRoot, entries);
    WalkAddsEmptyFolders(fs, absRoot, entries, acc);
    assert w.emptyFolders[..|acc.emptyFolders|] == acc.emptyFolders;
    EmptyFoldersOfComplete(fs, absRoot, entries);
    EmptyFoldersOfSound(fs, absRoot, entries);
  }

  /** The entries the walk records for the folders without children, in walk order. */
  function EmptyFoldersOf(fs: FileSystem, absRoot: string, entries: seq<WalkEntry>): seq<FileInfo>
    decreases |entries|
  {
    if |entries| == 0 then [] else EmptyFolderOf(fs, absRoot, entries[0]) + EmptyFoldersOf(fs, absRoot, entries[1..])
  }

  /** The record one walk entry adds to the empty folders: one for a folder without children, none otherwise. */
  function EmptyFolderOf(fs: FileSystem, absRoot: string, e: WalkEntry): seq<FileInfo> {
    if IsEmptyFolderEntry(fs, e) then [EmptyFolderEntry(e.pathName, absRoot)] else []
  }

  /** The walk appends exactly `EmptyFoldersOf` to the earlier empty folders. */
  lemma {:induction false} WalkAddsEmptyFolders(fs: FileSystem, absRoot: string, entries: seq<WalkEntry>, acc: Files)
    ensures WalkAll(fs, absRoot, entries, acc).emptyFolders == acc.emptyFolders + EmptyFoldersOf(fs, absRoot, entries)
    decreases |entries|
  {
    if |entries| > 0 {
      var acc' := WalkStep(fs, absRoot, entries[0], acc);
      WalkAddsEmptyFolders(fs, absRoot, entries[1..], acc');
      assert acc'.emptyFolders == acc.emptyFolders + EmptyFolderOf(fs, absRoot, entries[0]);
      AppendAssoc(acc.emptyFolders, EmptyFolderOf(fs, absRoot, entries[0]), EmptyFoldersOf(fs, absRoot, entries[1..]));
    }
  }

  lemma AppendAssoc<T>(a: seq<T>, b: seq<T>, c: seq<T>)
    ensures (a + b) + c == a + (b + c)
  {
  }

  /** Every walked folder without children has its entry in `EmptyFoldersOf`. */
  lemma {:induction false} EmptyFoldersOfComplete(fs: FileSystem, absRoot: string, entries: seq<WalkEntry>)
    ensures forall i :: 0 <= i < |entries| && IsEmptyFolderEntry(fs, entries[i]) ==>
              EmptyFolderEntry(entries[i].pathName, absRoot) in EmptyFoldersOf(fs, absRoot, entries)
    decreases |entries|
  {
    if |entries| > 0 {
      var tail := entries[1..];
      EmptyFoldersOfComplete(fs, absRoot, tail);
      forall i | 0 < i < |entries| && IsEmptyFolderEntry(fs, entries[i])
        ensures EmptyFolderEntry(entries[i].pathName, absRoot) in EmptyFoldersOf(fs, absRoot, entries)
      {
        assert entries[i] == tail[i - 1];
      }
    }
  }

  /** Every entry of `EmptyFoldersOf` belongs to a walked folder without children. */
  lemma {:induction false} EmptyFoldersOfSound(fs: FileSystem, absRoot: string, entries: seq<WalkEntry>)
    ensures forall e :: e in EmptyFoldersOf(fs, absRoot, entries) ==>
              exists i :: 0 <= i < |entries| && IsEmptyFolderEntry(fs, entries[i])
                          && e == EmptyFolderEntry(entries[i].pathName, absRoot)
    decreases |entries|
  {
    if |entries| > 0 {
      var tail := entries[1..];
      EmptyFoldersOfSound(fs, absRoot, tail);
      forall e | e in EmptyFoldersOf(fs, absRoot, tail)
        ensures exists i :: 0 <= i < |entries| && IsEmptyFolderEntry(fs, entries[i])
                            && e == EmptyFolderEntry(entries[i].pathName, absRoot)
      {
        var i :| 0 <= i < |tail| && IsEmptyFolderEntry(fs, tail[i]) && e == EmptyFolderEntry(tail[i].pathName, absRoot);
        assert tail[i] == entries[i + 1];
      }
    }
  }

  /**
   * A file found at `<parent>/<rel>/<name>`, where `<parent>` is the directory
   * holding the sent folder and the walk hands out cleaned paths, gets "<rel>/"
   * as its remote folder.
   */
  lemma WalkFolderRemote(absRoot: string, rel: string, name: string)
    requires rel != [] && Clean(Dir(absRoot) + [Separator] + rel) == Dir(absRoot) + [Separator] + rel
    requires name != [] && Separator !in name
    ensures var pathName := Dir(absRoot) + [Separator] + rel + [Separator] + name;
            RemoteFolderOf(Dir(pathName), absRoot) == rel + "/"
            && Base(pathName) == name
            && Dir(pathName) == Dir(absRoot) + [Separator] + rel
  {
    var parent := Dir(absRoot);
    var x := parent + [Separator] + rel;
    var pathName := x + [Separator] + name;
    assert LastSlash(pathName) == Some(|x|) by {
      LastSlashAfter(x, name);
    }
    assert pathName[..|x| + 1] == x + [Separator];
    CleanTrailingSlash(x);
    assert Dir(pathName) == x;
    assert TrimPrefix(x, parent + [Separator]) == rel;
    assert name[|name| - 1] in name;
    assert StripTrailingSlashes(pathName) == pathName;
    assert pathName[|x| + 1..] == name;
  }

  lemma {:induction false} LastSlashAfter(x: string, name: string)
    requires Separator !in name
    ensures LastSlash(x + [Separator] + name) == Some(|x|)
    decreases |name|
  {
    var p := x + [Separator] + name;
    if name != [] {
      var front := name[..|name| - 1];
      assert name[|name| - 1] in name;
      assert p[..|p| - 1] == x + [Separator] + front;
      assert Separator !in front by {
        assert forall c :: c in front ==> c in name;
      }
      LastSlashAfter(x, front);
    }
  }

  /**
   * What one path contributes: an Lstat or Abs failure aborts; a folder with
   * zipping on becomes one temporary ".zip" entry; a folder without zipping is
   * walked; anything else is a single entry.
   */
  function PathEntries(fs: FileSystem, path: string, zipFolder: bool): (r: Result<Files>)
    ensures fs.lstat(path).Err? ==> r == Err(fs.lstat(path).error)
    ensures fs.lstat(path).Ok? && fs.abs(path).Err? ==> r == Err(fs.abs(path).error)
    ensures r.Ok? && !fs.lstat(path).value.isDir ==>
              r.value == Files([SingleFileEntry(path, fs.abs(path).value, fs.lstat(path).value)], [], 0)
    ensures r.Ok? && fs.lstat(path).value.isDir && zipFolder ==>
              && |r.value.filesInfo| == 1 && r.value.emptyFolders == [] && r.value.totalNumberFolders == 0
              && r.value.filesInfo[0].name == Base(ZipDestination(path))
              && r.value.filesInfo[0].folderRemote == "./"
              && r.value.filesInfo[0].tempFile
    ensures r.Ok? && fs.lstat(path).value.isDir && !zipFolder ==>
              fs.walk(fs.abs(path).value).Ok?
              && r.value == WalkAll(fs, fs.abs(path).value, fs.walk(fs.abs(path).value).value, Files([], [], 0))
  {
    match fs.lstat(path)
    case Err(e) => Err(e)
    case Ok(stat) =>
      match fs.abs(path)
      case Err(e) => Err(e)
      case Ok(absPath) =>
        if stat.isDir && zipFolder then
          var dest := ZipDestination(path);
          match fs.lstat(dest)
          case Err(e) => Err(e)
          case Ok(zstat) =>
            match fs.abs(dest)
            case Err(e) => Err(e)
            case Ok(absDest) =>
              Ok(Files([FileInfo(Base(dest), "./", Dir(absDest), zstat.size, zstat.modTime,
                                 false, false, "", zstat.mode, true)], [], 0))
        else if stat.isDir then
          match fs.walk(absPath)
          case Err(e) => Err(e)
          case Ok(entries) => Ok(WalkAll(fs, absPath, entries, Files([], [], 0)))
        else
          Ok(Files([SingleFileEntry(path, absPath, stat)], [], 0))
  }

  function Merge(a: Files, b: Files): Files {
    Files(a.filesInfo + b.filesInfo, a.emptyFolders + b.emptyFolders,
          a.totalNumberFolders + b.totalNumberFolders)
  }

  /** The second loop of `GetFilesInfo`: contributions in path order, first error aborts. */
  function CollectPaths(fs: FileSystem, paths: seq<string>, zipFolder: bool): (r: Result<Files>)
    ensures r.Ok? <==> forall i :: 0 <= i < |paths| ==> PathEntries(fs, paths[i], zipFolder).Ok?
    decreases |paths|
  {
    if |paths| == 0 then Ok(Files([], [], 0))
    else
      match PathEntries(fs, paths[0], zipFolder)
      case Err(e) => Err(e)
      case Ok(head) =>
        match CollectPaths(fs, paths[1..], zipFolder)
        case Err(e) => Err(e)
        case Ok(tail) => Ok(Merge(head, tail))
  }

  /** What each path contributes (nothing for a path that fails). */
  function Contributions(fs: FileSystem, paths: seq<string>, zipFolder: bool): (xs: seq<Files>)
    ensures |xs| == |paths|
    ensures forall i :: 0 <= i < |paths| && PathEntries(fs, paths[i], zipFolder).Ok? ==>
              xs[i] == PathEntries(fs, paths[i], zipFolder).value
  {
    seq(|paths|, i requires 0 <= i < |paths| =>
      match PathEntries(fs, paths[i], zipFolder)
      case Ok(f) => f
      case Err(_) => Files([], [], 0))
  }

  /** The entries each path contributes. */
  function EntryLists(fs: FileSystem, paths: seq<string>, zipFolder: bool): (xs: seq<seq<FileInfo>>)
    ensures |xs| == |paths|
    ensures forall i :: 0 <= i < |paths| ==> xs[i] == Contributions(fs, paths, zipFolder)[i].filesInfo
  {
    var cs := Contributions(fs, paths, zipFolder);
    seq(|paths|, i requires 0 <= i < |paths| => cs[i].filesInfo)
  }

  /** The empty folders each path contributes. */
  function EmptyFolderLists(fs: FileSystem, paths: seq<string>, zipFolder: bool): (xs: seq<seq<FileInfo>>)
    ensures |xs| == |paths|
    ensures forall i :: 0 <= i < |paths| ==> xs[i] == Contributions(fs, paths, zipFolder)[i].emptyFolders
  {
    var cs := Contributions(fs, paths, zipFolder);
    seq(|paths|, i requires 0 <= i < |paths| => cs[i].emptyFolders)
  }

  function FolderSum(cs: seq<Files>): int
    decreases |cs|
  {
    if |cs| == 0 then 0 else cs[0].totalNumberFolders + FolderSum(cs[1..])
  }

  /**
   * The error `CollectPaths` reports is the error of the first path that
   * fails. On success the entries and the empty folders are every path's
   * contribution, concatenated in path order, and the folder count is the sum
   * of the paths' counts.
   */
  lemma {:induction false} CollectPathsContents(fs: FileSystem, paths: seq<string>, zipFolder: bool)
    ensures var r := CollectPaths(fs, paths, zipFolder);
            r.Err? ==> exists i :: 0 <= i < |paths| && PathEntries(fs, paths[i], zipFolder) == Err(r.error)
                                   && forall j :: 0 <= j < i ==> PathEntries(fs, paths[j], zipFolder).Ok?
    ensures var r := CollectPaths(fs, paths, zipFolder);
            r.Ok? ==> && r.value.filesInfo == Flatten(EntryLists(fs, paths, zipFolder))
                      && r.value.emptyFolders == Flatten(EmptyFolderLists(fs, paths, zipFolder))
                      && r.value.totalNumberFolders == FolderSum(Contributions(fs, paths, zipFolder))
    decreases |paths|
  {
    if |paths| > 0 {
      var tail := paths[1..];
      assert forall i :: 0 <= i < |tail| ==> tail[i] == paths[i + 1];
      assert Contributions(fs, paths, zipFolder)[1..] == Contributions(fs, tail, zipFolder);
      assert EntryLists(fs, paths, zipFolder)[1..] == EntryLists(fs, tail, zipFolder);
      assert EmptyFolderLists(fs, paths, zipFolder)[1..] == EmptyFolderLists(fs, tail, zipFolder);
      CollectPathsContents(fs, tail, zipFolder);
    }
  }

  /** `GetFilesInfo(fNames, zipFolder)`. */
  function GetFilesInfo(fs: FileSystem, fNames: seq<string>, zipFolder: bool): (r: Result<Files>)
    ensures ExpandArguments(fs, fNames).Err? ==> r == Err(ExpandArguments(fs, fNames).error)
    ensures ExpandArguments(fs, fNames).Ok? ==> r == CollectPaths(fs, ExpandArguments(fs, fNames).value, zipFolder)
    ensures r.Ok? ==> forall p :: p in ExpandArguments(fs, fNames).value ==> fs.lstat(p).Ok? && fs.abs(p).Ok?
  {
    match ExpandArguments(fs, fNames)
    case Err(e) => Err(e)
    case Ok(paths) =>
      var r := CollectPaths(fs, paths, zipFolder);
      assert r.Ok? ==> forall i :: 0 <= i < |paths| ==> PathEntries(fs, paths[i], zipFolder).Ok?;
      r
  }
}
