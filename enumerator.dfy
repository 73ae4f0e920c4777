/**
  The file enumerator `list_txt_files`: for each letter A to Z, the folder
  `<base>/<letter>` is walked when it is an existing directory, and every file
  whose name ends in `.txt` is collected, in walk order.

  The filesystem is an input: for a path it gives `None` when the path is not
  an existing directory, and otherwise the `(root, dirs, files)` triples that
  `os.walk` yields for it, in the order it yields them.
*/
module Enumerator {
  import opened Wrappers
  import opened PyStr

  /** One triple yielded by `os.walk`. */
  datatype WalkEntry = WalkEntry(root: string, dirs: seq<string>, files: seq<string>)

  type FileSystem = string -> Option<seq<WalkEntry>>

  /**
    `directory_exists`: the path exists and is a directory. The empty path
    never exists (`os.path.exists('')` is false); any other path is an
    existing directory exactly when the filesystem has a walk for it.
  */
  predicate DirectoryExists(fs: FileSystem, path: string) {
    path != [] && fs(path).Some?
  }

  /**
    POSIX `os.path.join(a, b)`: an absolute `b` replaces `a`; otherwise `b` is
    appended to `a`, with a `/` between them unless `a` is empty or already
    ends in one.
  */
  function PathJoin(a: string, b: string): (p: string)
    ensures (b == [] || b[0] != '/') ==> |a| <= |p| && p[..|a|] == a
    ensures |p| <= |a| + |b| + 1
  {
    if |b| > 0 && b[0] == '/' then b
    else if a == [] || a[|a| - 1] == '/' then a + b
    else a + "/" + b
  }

  /** A joined path ends with whatever its last component ends with (its extension, say). */
  lemma PathJoinEndsWith(a: string, b: string, suffix: string)
    requires EndsWith(b, suffix)
    ensures EndsWith(PathJoin(a, b), suffix)
  {
    var p := PathJoin(a, b);
    if !(|b| > 0 && b[0] == '/') {
      if a == [] || a[|a| - 1] == '/' {
        EndsWithAppend(a, b, suffix);
      } else {
        EndsWithAppend(a + "/", b, suffix);
      }
    }
  }

  /** The letter folders, in the order they are visited. */
  const Letters: string := "ABCDEFGHIJKLMNOPQRSTUVWXYZ"

  /**
    `os.path.join(base_directory, letter)`: the base directory followed by at
    most one `/` and then the letter, so distinct letters name distinct folders.
  */
  function LetterFolder(base: string, letter: char): (p: string)
    ensures letter != '/' ==> |base| < |p| <= |base| + 2 && p[..|base|] == base
    ensures p != [] && p[|p| - 1] == letter
    ensures letter != '/' && |p| == |base| + 2 ==> p[|base|] == '/'
    ensures letter != '/' && |p| == |base| + 1 ==> base == [] || base[|base| - 1] == '/'
    ensures letter != '/' && (base == [] || base[|base| - 1] == '/') ==> |p| == |base| + 1
  {
    PathJoin(base, [letter])
  }

  /** Different letters give different folders. */
  lemma LetterFoldersDistinct(base: string, a: char, b: char)
    requires a != b
    ensures LetterFolder(base, a) != LetterFolder(base, b)
  {
  }

  /** The `.txt` files among the names of one directory, joined to its path, in listing order. */
  function TxtFilesIn(root: string, names: seq<string>): (r: seq<string>)
    ensures |r| <= |names|
  {
    if names == [] then []
    else
      var init := TxtFilesIn(root, names[..|names| - 1]);
      var name := names[|names| - 1];
      if EndsWith(name, ".txt") then init + [PathJoin(root, name)] else init
  }

  lemma TxtFilesInSnoc(root: string, names: seq<string>, m: nat)
    requires m < |names|
    ensures TxtFilesIn(root, names[..m + 1]) ==
            TxtFilesIn(root, names[..m]) + (if EndsWith(names[m], ".txt") then [PathJoin(root, names[m])] else [])
  {
    assert names[..m + 1][..m] == names[..m];
  }

  /** `g(xs[0]) + g(xs[1]) + ...`: the lists of the items of `xs`, one after the other. */
  function ConcatMap<T>(g: T -> seq<string>, xs: seq<T>): seq<string> {
    if xs == [] then [] else ConcatMap(g, xs[..|xs| - 1]) + g(xs[|xs| - 1])
  }

  /** The `.txt` files of one directory of a walk. */
  function DirectoryListing(): WalkEntry -> seq<string> {
    (e: WalkEntry) => TxtFilesIn(e.root, e.files)
  }

  /** The `.txt` files of a whole walk, directory after directory. */
  function WalkTxtFiles(walk: seq<WalkEntry>): seq<string> {
    ConcatMap(DirectoryListing(), walk)
  }

  /** What one letter folder contributes: its walk's `.txt` files, or nothing when it is missing. */
  function LetterTxtFiles(base: string, fs: FileSystem, letter: char): (r: seq<string>)
    ensures !DirectoryExists(fs, LetterFolder(base, letter)) ==> r == []
  {
    var folder := LetterFolder(base, letter);
    if DirectoryExists(fs, folder) then WalkTxtFiles(fs(folder).value) else []
  }

  function LetterListing(base: string, fs: FileSystem): char -> seq<string> {
    (letter: char) => LetterTxtFiles(base, fs, letter)
  }

  /** The files of the letter folders `letters`, grouped by letter in the order given. */
  function TxtFilesUnder(base: string, fs: FileSystem, letters: seq<char>): seq<string> {
    ConcatMap(LetterListing(base, fs), letters)
  }

  /**
    `list_txt_files(base_directory)`: the `.txt` files under the letter
    folders A to Z, grouped by letter in alphabetical order, each group in
    walk order. The two inner loops of the source are the methods below.
  */
  method ListTxtFiles(base: string, fs: FileSystem) returns (txtFiles: seq<string>)
    ensures txtFiles == TxtFilesUnder(base, fs, Letters)
    ensures forall p :: p in txtFiles ==> EndsWith(p, ".txt")
  {
    txtFiles := [];
    var k := 0;
    while k < |Letters|
      invariant 0 <= k <= |Letters|
      invariant txtFiles == TxtFilesUnder(base, fs, Letters[..k])
    {
      var folderPath := LetterFolder(base, Letters[k]);
      if DirectoryExists(fs, folderPath) {
        txtFiles := AppendWalkTxtFiles(txtFiles, fs(folderPath).value);
      }
      assert Letters[..k + 1] == Letters[..k] + [Letters[k]];
      ConcatMapSnoc(LetterListing(base, fs), Letters[..k], Letters[k]);
      k := k + 1;
    }
    assert Letters[..k] == Letters;
    AllListedAreTxt(base, fs);
  }

  /** The loop over `os.walk(folder_path)`: appends the `.txt` files of every directory visited. */
  method AppendWalkTxtFiles(txtFilesIn: seq<string>, walk: seq<WalkEntry>) returns (txtFiles: seq<string>)
    ensures txtFiles == txtFilesIn + WalkTxtFiles(walk)
  {
    txtFiles := txtFilesIn;
    var e := 0;
    while e < |walk|
      invariant 0 <= e <= |walk|
      invariant txtFiles == txtFilesIn + WalkTxtFiles(walk[..e])
    {
      txtFiles := AppendTxtFiles(txtFiles, walk[e].root, walk[e].files);
      assert walk[..e + 1] == walk[..e] + [walk[e]];
      ConcatMapSnoc(DirectoryListing(), walk[..e], walk[e]);
      e := e + 1;
    }
    assert walk[..e] == walk;
  }

  /** The loop over the file names of one directory: appends `root` joined to each `.txt` name. */
  method AppendTxtFiles(txtFilesIn: seq<string>, root: string, files: seq<string>) returns (txtFiles: seq<string>)
    ensures txtFiles == txtFilesIn + TxtFilesIn(root, files)
  {
    txtFiles := txtFilesIn;
    var m := 0;
    while m < |files|
      invariant 0 <= m <= |files|
      invariant txtFiles == txtFilesIn + TxtFilesIn(root, files[..m])
    {
      TxtFilesInSnoc(root, files, m);
      if EndsWith(files[m], ".txt") {
        txtFiles := txtFiles + [PathJoin(root, files[m])];
      }
      m := m + 1;
    }
    assert files[..m] == files;
  }

  //////////////////////////////////////////////////////////////////////////////
  // Properties of the enumeration
  //////////////////////////////////////////////////////////////////////////////

  /** Within one directory, a path is listed exactly when it is the join of a `.txt` name. */
  lemma {:induction false} TxtFilesInMembers(root: string, names: seq<string>, p: string)
    ensures p in TxtFilesIn(root, names) <==>
            exists n :: n in names && EndsWith(n, ".txt") && p == PathJoin(root, n)
  {
    if names != [] {
      var init := names[..|names| - 1];
      TxtFilesInMembers(root, init, p);
      assert names == init + [names[|names| - 1]];
      if exists n :: n in names && EndsWith(n, ".txt") && p == PathJoin(root, n) {
        var n :| n in names && EndsWith(n, ".txt") && p == PathJoin(root, n);
        if n != names[|names| - 1] {
          assert n in init;
        }
      }
    }
  }

  /** An item is in a concatenation exactly when it is in the list of one of the parts. */
  lemma {:induction false} ConcatMapMembers<T>(g: T -> seq<string>, xs: seq<T>, p: string)
    ensures p in ConcatMap(g, xs) <==> exists i :: 0 <= i < |xs| && p in g(xs[i])
  {
    if xs != [] {
      var init := xs[..|xs| - 1];
      ConcatMapMembers(g, init, p);
      if exists i :: 0 <= i < |xs| && p in g(xs[i]) {
        var i :| 0 <= i < |xs| && p in g(xs[i]);
        if i < |xs| - 1 {
          assert init[i] == xs[i];
        }
      }
      if exists i :: 0 <= i < |init| && p in g(init[i]) {
        var i :| 0 <= i < |init| && p in g(init[i]);
        assert xs[i] == init[i];
      }
    }
  }

  lemma ConcatMapSnoc<T>(g: T -> seq<string>, xs: seq<T>, x: T)
    ensures ConcatMap(g, xs + [x]) == ConcatMap(g, xs) + g(x)
  {
    assert (xs + [x])[..|xs|] == xs;
  }

  /** The concatenation of two runs of parts is the concatenation of their concatenations. */
  lemma {:induction false} ConcatMapAppend<T>(g: T -> seq<string>, xs: seq<T>, ys: seq<T>)
    ensures ConcatMap(g, xs + ys) == ConcatMap(g, xs) + ConcatMap(g, ys)
    decreases |ys|
  {
    if ys == [] {
      assert xs + ys == xs;
    } else {
      var init, last := ys[..|ys| - 1], ys[|ys| - 1];
      assert ys == init + [last];
      assert xs + ys == (xs + init) + [last];
      ConcatMapAppend(g, xs, init);
      ConcatMapSnoc(g, xs + init, last);
      ConcatMapSnoc(g, init, last);
    }
  }

  lemma {:induction false} ConcatMapEmpty<T>(g: T -> seq<string>, xs: seq<T>)
    requires forall i :: 0 <= i < |xs| ==> g(xs[i]) == []
    ensures ConcatMap(g, xs) == []
  {
    if xs != [] {
      var init := xs[..|xs| - 1];
      assert forall i :: 0 <= i < |init| ==> init[i] == xs[i];
      ConcatMapEmpty(g, init);
    }
  }

  /**
    Every `.txt` file of every directory the walk of an existing letter folder
    visits is listed, whatever its depth, and nothing else is.
  */
  lemma ListedIff(base: string, fs: FileSystem, p: string)
    ensures p in TxtFilesUnder(base, fs, Letters) <==>
            exists k, i, n :: 0 <= k < |Letters| && DirectoryExists(fs, LetterFolder(base, Letters[k]))
                           && 0 <= i < |fs(LetterFolder(base, Letters[k])).value|
                           && n in fs(LetterFolder(base, Letters[k])).value[i].files
                           && EndsWith(n, ".txt")
                           && p == PathJoin(fs(LetterFolder(base, Letters[k])).value[i].root, n)
  {
    ConcatMapMembers(LetterListing(base, fs), Letters, p);
    forall k | 0 <= k < |Letters|
      ensures p in LetterTxtFiles(base, fs, Letters[k]) <==>
              && DirectoryExists(fs, LetterFolder(base, Letters[k]))
              && exists i, n :: 0 <= i < |fs(LetterFolder(base, Letters[k])).value|
                             && n in fs(LetterFolder(base, Letters[k])).value[i].files
                             && EndsWith(n, ".txt")
                             && p == PathJoin(fs(LetterFolder(base, Letters[k])).value[i].root, n)
    {
      var folder := LetterFolder(base, Letters[k]);
      if DirectoryExists(fs, folder) {
        var walk := fs(folder).value;
        ConcatMapMembers(DirectoryListing(), walk, p);
        forall i | 0 <= i < |walk| {
          TxtFilesInMembers(walk[i].root, walk[i].files, p);
        }
      }
    }
  }

  /** Only `.txt` files are listed. */
  lemma ListedAreTxt(base: string, fs: FileSystem, p: string)
    requires p in TxtFilesUnder(base, fs, Letters)
    ensures EndsWith(p, ".txt")
  {
    ListedIff(base, fs, p);
    var k, i, n :| 0 <= k < |Letters| && DirectoryExists(fs, LetterFolder(base, Letters[k]))
                   && 0 <= i < |fs(LetterFolder(base, Letters[k])).value|
                   && n in fs(LetterFolder(base, Letters[k])).value[i].files
                   && EndsWith(n, ".txt")
                   && p == PathJoin(fs(LetterFolder(base, Letters[k])).value[i].root, n);
    PathJoinEndsWith(fs(LetterFolder(base, Letters[k])).value[i].root, n, ".txt");
  }

  lemma AllListedAreTxt(base: string, fs: FileSystem)
    ensures forall p :: p in TxtFilesUnder(base, fs, Letters) ==> EndsWith(p, ".txt")
  {
    forall p | p in TxtFilesUnder(base, fs, Letters) ensures EndsWith(p, ".txt") {
      ListedAreTxt(base, fs, p);
    }
  }

  /** Grouping: the files of earlier letters all come before the files of later letters. */
  lemma TxtFilesUnderAppend(base: string, fs: FileSystem, first: seq<char>, second: seq<char>)
    ensures TxtFilesUnder(base, fs, first + second) == TxtFilesUnder(base, fs, first) + TxtFilesUnder(base, fs, second)
  {
    ConcatMapAppend(LetterListing(base, fs), first, second);
  }

  /** The listing is the files of A, then those of B, and so on up to Z. */
  lemma ListedByLetter(base: string, fs: FileSystem, k: nat)
    requires k < |Letters|
    ensures TxtFilesUnder(base, fs, Letters) ==
            TxtFilesUnder(base, fs, Letters[..k]) + LetterTxtFiles(base, fs, Letters[k]) + TxtFilesUnder(base, fs, Letters[k + 1..])
  {
    var g := LetterListing(base, fs);
    var front, back := Letters[..k] + [Letters[k]], Letters[k + 1..];
    assert Letters == front + back;
    ConcatMapAppend(g, front, back);
    ConcatMapSnoc(g, Letters[..k], Letters[k]);
    assert g(Letters[k]) == LetterTxtFiles(base, fs, Letters[k]);
  }

  /** Missing letter folders contribute nothing: with none present the listing is empty. */
  lemma NoLetterFolders(base: string, fs: FileSystem)
    requires forall k :: 0 <= k < |Letters| ==> !DirectoryExists(fs, LetterFolder(base, Letters[k]))
    ensures TxtFilesUnder(base, fs, Letters) == []
  {
    ConcatMapEmpty(LetterListing(base, fs), Letters);
  }
}
