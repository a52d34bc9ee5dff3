/** src/day7.rs: the file-system tree rebuilt from a shell log, and the folder
    size queries of both parts.  A `HashMap` keyed by name becomes a sequence of
    entries whose names are distinct (`WellFormed`); inserting replaces the entry
    of that name or appends one, and lookups find the entry of a name.  The tree
    is a value: an update through `get_folder_mut` is modelled by rebuilding the
    folders along the path (`ModifyAt`). */
module Day7 {
  import opened Wrappers
  import opened Strings

  datatype File = File(size: nat, name: string)

  datatype Folder = Folder(name: string, files: seq<File>, folders: seq<Folder>)

  type Path = seq<string>

  datatype State = State(fileSystem: Folder, currentFolder: Path)

  /** `Folder::new`. */
  function NewFolder(name: string): Folder
  {
    Folder(name, [], [])
  }

  /** `State::new`: an unnamed empty root, and the root as the current folder. */
  function NewState(): State
  {
    State(NewFolder(""), [])
  }

  // ---------------------------------------------------------------------------
  // The maps of a folder

  predicate UniqueFolderNames(fs: seq<Folder>)
  {
    forall i, j :: 0 <= i < j < |fs| ==> fs[i].name != fs[j].name
  }

  predicate UniqueFileNames(fs: seq<File>)
  {
    forall i, j :: 0 <= i < j < |fs| ==> fs[i].name != fs[j].name
  }

  /** Every folder of the tree holds at most one file and one subfolder per name,
      as the source's maps do. */
  predicate WellFormed(f: Folder)
  {
    && UniqueFileNames(f.files)
    && UniqueFolderNames(f.folders)
    && forall i :: 0 <= i < |f.folders| ==> WellFormed(f.folders[i])
  }

  /** `HashMap::get` on the subfolders. */
  function FindFolder(fs: seq<Folder>, name: string): (r: Option<Folder>)
    ensures r.Some? ==> r.value in fs && r.value.name == name
  {
    if |fs| == 0 then None
    else if fs[0].name == name then Some(fs[0])
    else FindFolder(fs[1..], name)
  }

  /** `HashMap::get` on the files. */
  function FindFile(fs: seq<File>, name: string): (r: Option<File>)
    ensures r.Some? ==> r.value in fs && r.value.name == name
  {
    if |fs| == 0 then None
    else if fs[0].name == name then Some(fs[0])
    else FindFile(fs[1..], name)
  }

  /** A lookup fails exactly when no entry has the name. */
  lemma {:induction false} FindFolderMissing(fs: seq<Folder>, name: string)
    ensures FindFolder(fs, name).None? <==> forall g :: g in fs ==> g.name != name
  {
    if |fs| > 0 {
      FindFolderMissing(fs[1..], name);
      assert forall g :: g in fs[1..] ==> g in fs;
      assert fs == [fs[0]] + fs[1..];
    }
  }

  /** `HashMap::insert` keyed by the folder's name. */
  function InsertFolder(fs: seq<Folder>, g: Folder): seq<Folder>
  {
    if |fs| == 0 then [g]
    else if fs[0].name == g.name then [g] + fs[1..]
    else [fs[0]] + InsertFolder(fs[1..], g)
  }

  /** `HashMap::insert` keyed by the file's name. */
  function InsertFile(fs: seq<File>, g: File): seq<File>
  {
    if |fs| == 0 then [g]
    else if fs[0].name == g.name then [g] + fs[1..]
    else [fs[0]] + InsertFile(fs[1..], g)
  }

  /** After the insert the name finds `g`, and every other name finds what it
      found before. */
  lemma {:induction false} InsertFolderFinds(fs: seq<Folder>, g: Folder, n: string)
    ensures FindFolder(InsertFolder(fs, g), n) == if n == g.name then Some(g) else FindFolder(fs, n)
  {
    if |fs| > 0 && fs[0].name != g.name {
      InsertFolderFinds(fs[1..], g, n);
    }
  }

  lemma {:induction false} InsertFileFinds(fs: seq<File>, g: File, n: string)
    ensures FindFile(InsertFile(fs, g), n) == if n == g.name then Some(g) else FindFile(fs, n)
  {
    if |fs| > 0 && fs[0].name != g.name {
      InsertFileFinds(fs[1..], g, n);
    }
  }

  /** The insert adds no entry but `g`, and keeps the names distinct. */
  lemma {:induction false} InsertFolderEntries(fs: seq<Folder>, g: Folder)
    ensures forall x :: x in InsertFolder(fs, g) ==> x == g || x in fs
    ensures UniqueFolderNames(fs) ==> UniqueFolderNames(InsertFolder(fs, g))
  {
    if |fs| > 0 && fs[0].name != g.name {
      InsertFolderEntries(fs[1..], g);
      var r := InsertFolder(fs, g);
      assert r == [fs[0]] + InsertFolder(fs[1..], g);
      if UniqueFolderNames(fs) {
        assert UniqueFolderNames(fs[1..]);
        forall j | 1 <= j < |r|
          ensures r[0].name != r[j].name
        {
          assert r[j] in InsertFolder(fs[1..], g);
          if r[j] != g {
            var k :| 0 <= k < |fs[1..]| && fs[1..][k] == r[j];
            assert fs[k + 1] == r[j];
          }
        }
      }
    } else if |fs| > 0 {
      assert forall x :: x in fs[1..] ==> x in fs;
    }
  }

  lemma {:induction false} InsertFileEntries(fs: seq<File>, g: File)
    ensures forall x :: x in InsertFile(fs, g) ==> x == g || x in fs
    ensures UniqueFileNames(fs) ==> UniqueFileNames(InsertFile(fs, g))
  {
    if |fs| > 0 && fs[0].name != g.name {
      InsertFileEntries(fs[1..], g);
      var r := InsertFile(fs, g);
      assert r == [fs[0]] + InsertFile(fs[1..], g);
      if UniqueFileNames(fs) {
        assert UniqueFileNames(fs[1..]);
        forall j | 1 <= j < |r|
          ensures r[0].name != r[j].name
        {
          assert r[j] in InsertFile(fs[1..], g);
          if r[j] != g {
            var k :| 0 <= k < |fs[1..]| && fs[1..][k] == r[j];
            assert fs[k + 1] == r[j];
          }
        }
      }
    } else if |fs| > 0 {
      assert forall x :: x in fs[1..] ==> x in fs;
    }
  }

  /** `Folder::add_folder`. */
  function AddFolder(f: Folder, g: Folder): Folder
  {
    f.(folders := InsertFolder(f.folders, g))
  }

  /** `Folder::add_file`. */
  function AddFile(f: Folder, file: File): Folder
  {
    f.(files := InsertFile(f.files, file))
  }

  /** `add_folder` sets the entry for `g.name` to `g`, replacing any folder of
      that name; the other subfolders, the files and the name stay. */
  lemma AddFolderSets(f: Folder, g: Folder)
    ensures AddFolder(f, g).name == f.name && AddFolder(f, g).files == f.files
    ensures FindFolder(AddFolder(f, g).folders, g.name) == Some(g)
    ensures forall n :: n != g.name ==> FindFolder(AddFolder(f, g).folders, n) == FindFolder(f.folders, n)
  {
    forall n {
      InsertFolderFinds(f.folders, g, n);
    }
  }

  /** `add_file` sets the entry for `file.name` to `file`; the other files, the
      subfolders and the name stay. */
  lemma AddFileSets(f: Folder, file: File)
    ensures AddFile(f, file).name == f.name && AddFile(f, file).folders == f.folders
    ensures FindFile(AddFile(f, file).files, file.name) == Some(file)
    ensures forall n :: n != file.name ==> FindFile(AddFile(f, file).files, n) == FindFile(f.files, n)
  {
    forall n {
      InsertFileFinds(f.files, file, n);
    }
  }

  /** Adding an entry keeps the folder well formed. */
  lemma AddKeepsWellFormed(f: Folder, g: Folder, file: File)
    requires WellFormed(f) && WellFormed(g)
    ensures WellFormed(AddFolder(f, g)) && WellFormed(AddFile(f, file))
  {
    InsertFolderEntries(f.folders, g);
    InsertFileEntries(f.files, file);
    var r := AddFolder(f, g);
    forall i | 0 <= i < |r.folders|
      ensures WellFormed(r.folders[i])
    {
      assert r.folders[i] in r.folders;
    }
  }

  // ---------------------------------------------------------------------------
  // Paths

  /** `Folder::get_folder_mut` (as a read): the empty path is the folder itself;
      otherwise the first name must be a subfolder, and the rest is looked up
      there.  The folder reached carries the last name of the path. */
  function GetFolder(f: Folder, path: Path): (r: Option<Folder>)
    ensures path == [] ==> r == Some(f)
    ensures r.Some? && path != [] ==> r.value.name == path[|path| - 1]
    decreases path
  {
    if path == [] then Some(f)
    else
      match FindFolder(f.folders, path[0])
      case None => None
      case Some(sub) => GetFolder(sub, path[1..])
  }

  /** Looking up a concatenation walks the first part and then the second. */
  lemma {:induction false} GetFolderAppend(f: Folder, p: Path, q: Path)
    ensures GetFolder(f, p + q) ==
            match GetFolder(f, p)
            case None => None
            case Some(g) => GetFolder(g, q)
    decreases p
  {
    if p == [] {
      assert p + q == q;
    } else {
      assert (p + q)[0] == p[0];
      assert (p + q)[1..] == p[1..] + q;
      match FindFolder(f.folders, p[0]) {
        case None =>
        case Some(sub) => GetFolderAppend(sub, p[1..], q);
      }
    }
  }

  /** A name missing along the path makes the lookup fail (the `unwrap` of
      `execute_lines` would panic). */
  lemma GetFolderMissing(f: Folder, path: Path, k: nat, g: Folder)
    requires k < |path|
    requires GetFolder(f, path[..k]) == Some(g)
    requires forall h :: h in g.folders ==> h.name != path[k]
    ensures GetFolder(f, path) == None
  {
    FindFolderMissing(g.folders, path[k]);
    assert path == path[..k] + path[k..];
    GetFolderAppend(f, path[..k], path[k..]);
    assert path[k..][0] == path[k];
  }

  /** The change `execute_lines` makes through the reference `get_folder_mut`
      returns. */
  datatype Change = AddDir(folder: Folder) | AddEntry(file: File)

  function Apply(f: Folder, c: Change): (r: Folder)
    ensures r.name == f.name
  {
    match c
    case AddDir(g) => AddFolder(f, g)
    case AddEntry(file) => AddFile(f, file)
  }

  /** `get_folder_mut(path).unwrap()` followed by the change: `None` when the path
      does not exist; otherwise the folder at `path` is the changed one and the
      root keeps its name. */
  function ModifyAt(root: Folder, path: Path, c: Change): (r: Option<Folder>)
    ensures r.Some? <==> GetFolder(root, path).Some?
    ensures r.Some? ==> r.value.name == root.name
    ensures r.Some? ==> GetFolder(r.value, path) == Some(Apply(GetFolder(root, path).value, c))
    decreases path
  {
    if path == [] then Some(Apply(root, c))
    else
      match FindFolder(root.folders, path[0])
      case None => None
      case Some(sub) =>
        match ModifyAt(sub, path[1..], c)
        case None => None
        case Some(sub') =>
          InsertFolderFinds(root.folders, sub', path[0]);
          Some(root.(folders := InsertFolder(root.folders, sub')))
  }

  /** Nothing off the path changes: a path that leaves `path` at index k finds
      what it found before. */
  lemma {:induction false} ModifyAtElsewhere(root: Folder, path: Path, c: Change, q: Path, k: nat)
    requires ModifyAt(root, path, c).Some?
    requires k < |path| && k < |q| && path[..k] == q[..k] && path[k] != q[k]
    ensures GetFolder(ModifyAt(root, path, c).value, q) == GetFolder(root, q)
    decreases k
  {
    var sub := FindFolder(root.folders, path[0]).value;
    var sub' := ModifyAt(sub, path[1..], c).value;
    var r := root.(folders := InsertFolder(root.folders, sub'));
    assert ModifyAt(root, path, c).value == r;
    InsertFolderFinds(root.folders, sub', q[0]);
    if k == 0 {
      assert FindFolder(r.folders, q[0]) == FindFolder(root.folders, q[0]);
    } else {
      assert q[0] == path[..k][0];
      assert path[1..][..k - 1] == path[..k][1..] == q[..k][1..] == q[1..][..k - 1];
      ModifyAtElsewhere(sub, path[1..], c, q[1..], k - 1);
      calc {
        GetFolder(r, q);
        { assert FindFolder(r.folders, q[0]) == Some(sub'); }
        GetFolder(sub', q[1..]);
        GetFolder(sub, q[1..]);
        { assert FindFolder(root.folders, q[0]) == Some(sub); }
        GetFolder(root, q);
      }
    }
  }

  /** Changes at a path keep the tree well formed. */
  lemma {:induction false} ModifyAtKeepsWellFormed(root: Folder, path: Path, c: Change)
    requires WellFormed(root)
    requires c.AddDir? ==> WellFormed(c.folder)
    ensures ModifyAt(root, path, c).Some? ==> WellFormed(ModifyAt(root, path, c).value)
    decreases path
  {
    if path == [] {
      AddKeepsWellFormed(root, if c.AddDir? then c.folder else root, if c.AddEntry? then c.file else File(0, ""));
    } else if FindFolder(root.folders, path[0]).Some? {
      var sub := FindFolder(root.folders, path[0]).value;
      assert WellFormed(sub);
      ModifyAtKeepsWellFormed(sub, path[1..], c);
      if ModifyAt(sub, path[1..], c).Some? {
        var sub' := ModifyAt(sub, path[1..], c).value;
        var fs := InsertFolder(root.folders, sub');
        InsertFolderEntries(root.folders, sub');
        forall i | 0 <= i < |fs|
          ensures WellFormed(fs[i])
        {
          assert fs[i] in fs;
        }
      }
    }
  }

  // ---------------------------------------------------------------------------
  // Sizes

  function FilesSize(fs: seq<File>): nat
  {
    if |fs| == 0 then 0 else FilesSize(fs[..|fs| - 1]) + fs[|fs| - 1].size
  }

  function FoldersSize(fs: seq<Folder>): (n: nat)
    ensures forall i :: 0 <= i < |fs| ==> Size(fs[i]) <= n
  {
    if |fs| == 0 then 0
    else
      assert forall i :: 0 <= i < |fs| - 1 ==> fs[..|fs| - 1][i] == fs[i];
      FoldersSize(fs[..|fs| - 1]) + Size(fs[|fs| - 1])
  }

  /** The size `get_size` reports: the files of the folder and, recursively, the
      sizes of its subfolders; a folder without subfolders weighs its files. */
  function Size(f: Folder): (s: nat)
    ensures s >= FilesSize(f.files)
    ensures |f.folders| == 0 ==> s == FilesSize(f.files)
  {
    FilesSize(f.files) + FoldersSize(f.folders)
  }

  /** `Folder::get_size`: two accumulating loops, the second one recursive. */
  method GetSize(f: Folder) returns (size: nat)
    ensures size == Size(f)
    decreases f
  {
    size := 0;
    for i := 0 to |f.files|
      invariant size == FilesSize(f.files[..i])
    {
      assert f.files[..i + 1][..i] == f.files[..i];
      size := size + f.files[i].size;
    }
    assert f.files[..|f.files|] == f.files;
    for i := 0 to |f.folders|
      invariant size == FilesSize(f.files) + FoldersSize(f.folders[..i])
    {
      assert f.folders[..i + 1][..i] == f.folders[..i];
      var s := GetSize(f.folders[i]);
      size := size + s;
    }
    assert f.folders[..|f.folders|] == f.folders;
  }

  lemma {:induction false} FoldersSizeBounds(fs: seq<Folder>, i: nat)
    requires i < |fs|
    ensures Size(fs[i]) <= FoldersSize(fs)
  {
    if i < |fs| - 1 {
      FoldersSizeBounds(fs[..|fs| - 1], i);
    }
  }

  /** A folder is at least as large as each of its subfolders. */
  lemma SubfolderNotLarger(f: Folder, i: nat)
    requires i < |f.folders|
    ensures Size(f.folders[i]) <= Size(f)
  {
    FoldersSizeBounds(f.folders, i);
  }

  // ---------------------------------------------------------------------------
  // All folders of a tree, in the order the recursive walks visit them

  function AllFolders(f: Folder): seq<Folder>
  {
    [f] + AllFoldersOf(f.folders)
  }

  function AllFoldersOf(fs: seq<Folder>): seq<Folder>
  {
    if |fs| == 0 then [] else AllFoldersOf(fs[..|fs| - 1]) + AllFolders(fs[|fs| - 1])
  }

  lemma {:induction false} AllFoldersOfBounded(fs: seq<Folder>)
    ensures forall g :: g in AllFoldersOf(fs) ==> Size(g) <= FoldersSize(fs)
    decreases fs
  {
    if |fs| > 0 {
      var n := |fs| - 1;
      AllFoldersOfBounded(fs[..n]);
      AllFoldersBounded(fs[n]);
    }
  }

  /** No folder of the tree is larger than its root. */
  lemma {:induction false} AllFoldersBounded(f: Folder)
    ensures forall g :: g in AllFolders(f) ==> Size(g) <= Size(f)
    decreases f
  {
    AllFoldersOfBounded(f.folders);
  }

  lemma {:induction false} AllFoldersOfContains(fs: seq<Folder>, i: nat)
    requires i < |fs|
    ensures forall g :: g in AllFolders(fs[i]) ==> g in AllFoldersOf(fs)
  {
    if i < |fs| - 1 {
      AllFoldersOfContains(fs[..|fs| - 1], i);
    }
  }

  /** Every folder a path reaches is among the folders the walks visit. */
  lemma {:induction false} GetFolderInAll(f: Folder, path: Path)
    requires GetFolder(f, path).Some?
    ensures GetFolder(f, path).value in AllFolders(f)
    decreases path
  {
    if path != [] {
      var sub := FindFolder(f.folders, path[0]).value;
      var i :| 0 <= i < |f.folders| && f.folders[i] == sub;
      GetFolderInAll(sub, path[1..]);
      AllFoldersOfContains(f.folders, i);
    }
  }

  // ---------------------------------------------------------------------------
  // Part one

  const SmallLimit: nat := 100000

  /** The sum of the sizes at most 100000 among `gs`. */
  function SumSmall(gs: seq<Folder>): nat
  {
    if |gs| == 0 then 0
    else
      var g := gs[|gs| - 1];
      SumSmall(gs[..|gs| - 1]) + (if Size(g) <= SmallLimit then Size(g) else 0)
  }

  lemma {:induction false} SumSmallConcat(a: seq<Folder>, b: seq<Folder>)
    ensures SumSmall(a + b) == SumSmall(a) + SumSmall(b)
    decreases |b|
  {
    if |b| == 0 {
      assert a + b == a;
    } else {
      assert (a + b)[..|a + b| - 1] == a + b[..|b| - 1];
      SumSmallConcat(a, b[..|b| - 1]);
    }
  }

  /** `sum_subfolder_sizes`: adds to `size` the size of every folder of the tree,
      root included, whose size is at most 100000. */
  method SumSubfolderSizes(folder: Folder, size: nat) returns (size': nat)
    ensures size' == size + SumSmall(AllFolders(folder))
    decreases folder
  {
    size' := size;
    var folderSize := GetSize(folder);
    if folderSize <= SmallLimit {
      size' := size' + folderSize;
    }
    assert SumSmall([folder]) == if Size(folder) <= SmallLimit then Size(folder) else 0 by {
      assert [folder][..0] == [];
    }
    var fs := folder.folders;
    for i := 0 to |fs|
      invariant size' == size + SumSmall([folder]) + SumSmall(AllFoldersOf(fs[..i]))
    {
      assert fs[..i + 1][..i] == fs[..i];
      SumSmallConcat(AllFoldersOf(fs[..i]), AllFolders(fs[i]));
      size' := SumSubfolderSizes(fs[i], size');
    }
    assert fs[..|fs|] == fs;
    SumSmallConcat([folder], AllFoldersOf(fs));
  }

  // ---------------------------------------------------------------------------
  // Part two

  /** The `(size, folder)` pairs `find_folder_to_remove` collects from `gs`. */
  function Candidates(gs: seq<Folder>, minSize: nat): seq<(nat, Folder)>
  {
    if |gs| == 0 then []
    else
      var g := gs[|gs| - 1];
      Candidates(gs[..|gs| - 1], minSize) + (if Size(g) > minSize then [(Size(g), g)] else [])
  }

  lemma CandidatesSingle(g: Folder, minSize: nat)
    ensures Candidates([g], minSize) == if Size(g) > minSize then [(Size(g), g)] else []
  {
    assert [g][..0] == [];
  }

  lemma {:induction false} CandidatesConcat(a: seq<Folder>, b: seq<Folder>, minSize: nat)
    ensures Candidates(a + b, minSize) == Candidates(a, minSize) + Candidates(b, minSize)
    decreases |b|
  {
    if |b| == 0 {
      assert a + b == a;
    } else {
      assert (a + b)[..|a + b| - 1] == a + b[..|b| - 1];
      CandidatesConcat(a, b[..|b| - 1], minSize);
    }
  }

  /** The candidates are exactly the folders larger than `minSize`, each with its
      size. */
  lemma {:induction false} CandidatesMeans(gs: seq<Folder>, minSize: nat)
    ensures forall c :: c in Candidates(gs, minSize) <==> c.1 in gs && c.0 == Size(c.1) && c.0 > minSize
  {
    if |gs| > 0 {
      var n := |gs| - 1;
      CandidatesMeans(gs[..n], minSize);
      assert gs == gs[..n] + [gs[n]];
    }
  }

  /** `find_folder_to_remove`: appends the folders of the tree, root included,
      that are larger than `minSize`. */
  method FindFolderToRemove(folder: Folder, minSize: nat, candidates: seq<(nat, Folder)>)
    returns (candidates': seq<(nat, Folder)>)
    ensures candidates' == candidates + Candidates(AllFolders(folder), minSize)
    decreases folder, 1
  {
    candidates' := candidates;
    var folderSize := GetSize(folder);
    if folderSize > minSize {
      candidates' := candidates' + [(folderSize, folder)];
    }
    ghost var own := Candidates([folder], minSize);
    CandidatesSingle(folder, minSize);
    assert candidates' == candidates + own;
    ghost var mid := candidates';
    candidates' := FindInSubfolders(folder.folders, minSize, candidates');
    ghost var sub := Candidates(AllFoldersOf(folder.folders), minSize);
    CandidatesOfFolder(folder, minSize);
    assert candidates' == mid + sub;
    assert (candidates + own) + sub == candidates + (own + sub);
  }

  lemma CandidatesOfFolder(folder: Folder, minSize: nat)
    ensures Candidates(AllFolders(folder), minSize)
         == Candidates([folder], minSize) + Candidates(AllFoldersOf(folder.folders), minSize)
  {
    CandidatesConcat([folder], AllFoldersOf(folder.folders), minSize);
  }

  /** The loop of `find_folder_to_remove` over the subfolders. */
  method FindInSubfolders(fs: seq<Folder>, minSize: nat, candidates: seq<(nat, Folder)>)
    returns (candidates': seq<(nat, Folder)>)
    ensures candidates' == candidates + Candidates(AllFoldersOf(fs), minSize)
    decreases fs, 0
  {
    candidates' := candidates;
    for i := 0 to |fs|
      invariant candidates' == candidates + Candidates(AllFoldersOf(fs[..i]), minSize)
    {
      ghost var before := Candidates(AllFoldersOf(fs[..i]), minSize);
      ghost var part := Candidates(AllFolders(fs[i]), minSize);
      assert AllFoldersOf(fs[..i + 1]) == AllFoldersOf(fs[..i]) + AllFolders(fs[i]) by {
        assert fs[..i + 1][..i] == fs[..i];
      }
      CandidatesConcat(AllFoldersOf(fs[..i]), AllFolders(fs[i]), minSize);
      candidates' := FindFolderToRemove(fs[i], minSize, candidates');
      assert candidates' == candidates + (before + part);
    }
    assert fs[..|fs|] == fs;
  }

  /** The key `min_by_key` minimises. */
  function MinSize(cs: seq<(nat, Folder)>): (m: nat)
    requires |cs| > 0
    ensures exists i :: 0 <= i < |cs| && cs[i].0 == m
    ensures forall i :: 0 <= i < |cs| ==> m <= cs[i].0
  {
    if |cs| == 1 then cs[0].0
    else
      var m := MinSize(cs[1..]);
      assert forall i :: 1 <= i < |cs| ==> cs[1..][i - 1] == cs[i];
      if cs[0].0 <= m then cs[0].0 else m
  }

  const DiskSize: nat := 70000000
  const NeededSpace: nat := 30000000

  /** The arithmetic of `day7b` on the built tree: an unsigned subtraction that
      would go below zero panics, and so does `unwrap` on no candidate. */
  function SmallestToRemove(root: Folder): (r: Option<nat>)
    ensures r.Some? ==> DiskSize - NeededSpace <= Size(root) <= DiskSize
    ensures r.Some? ==> Size(root) - (DiskSize - NeededSpace) < r.value
    ensures r.Some? ==> exists g :: g in AllFolders(root) && Size(g) == r.value
  {
    var total := Size(root);
    if total > DiskSize then None
    else
      var free := DiskSize - total;
      if free > NeededSpace then None
      else
        var cs := Candidates(AllFolders(root), NeededSpace - free);
        if |cs| == 0 then None
        else
          var m := MinSize(cs);
          CandidatesMeans(AllFolders(root), NeededSpace - free);
          assert exists i :: 0 <= i < |cs| && cs[i].0 == m && cs[i] in cs;
          Some(m)
  }

  /** `day7b` answers exactly when the tree takes between 40000000 and 70000000
      (the candidates are never empty then, since the root is one), and its answer
      is the smallest size above total - 40000000 among the folders of the tree. */
  lemma SmallestToRemoveMeans(root: Folder)
    ensures SmallestToRemove(root).Some? <==> DiskSize - NeededSpace <= Size(root) <= DiskSize
    ensures SmallestToRemove(root).Some? ==>
              var r := SmallestToRemove(root).value;
              && (exists g :: g in AllFolders(root) && Size(g) == r && Size(g) > Size(root) - (DiskSize - NeededSpace))
              && (forall g :: g in AllFolders(root) && Size(g) > Size(root) - (DiskSize - NeededSpace) ==> r <= Size(g))
              && r <= Size(root)
  {
    var total := Size(root);
    if DiskSize - NeededSpace <= total <= DiskSize {
      var minSize := NeededSpace - (DiskSize - total);
      assert root in AllFolders(root);
      MinCandidate(AllFolders(root), minSize, root);
    }
  }

  /** When some folder of gs is larger than minSize, there are candidates, and
      the least candidate size is the size of such a folder, no larger than any
      other such folder. */
  lemma MinCandidate(gs: seq<Folder>, minSize: nat, big: Folder)
    requires big in gs && Size(big) > minSize
    ensures |Candidates(gs, minSize)| > 0
    ensures var r := MinSize(Candidates(gs, minSize));
            && (exists g :: g in gs && Size(g) == r && Size(g) > minSize)
            && (forall g :: g in gs && Size(g) > minSize ==> r <= Size(g))
            && r <= Size(big)
  {
    var cs := Candidates(gs, minSize);
    CandidatesMeans(gs, minSize);
    assert (Size(big), big) in cs;
    var r := MinSize(cs);
    var i :| 0 <= i < |cs| && cs[i].0 == r;
    assert cs[i] in cs;
    forall g | g in gs && Size(g) > minSize
      ensures r <= Size(g)
    {
      assert (Size(g), g) in cs;
      var j :| 0 <= j < |cs| && cs[j] == (Size(g), g);
    }
    var k :| 0 <= k < |cs| && cs[k] == (Size(big), big);
  }

  // ---------------------------------------------------------------------------
  // The shell log

  predicate StartsWith(s: string, prefix: string)
  {
    |prefix| <= |s| && s[..|prefix|] == prefix
  }

  /** The path after `cd arg`: "/" is the root, ".." drops the last name (nothing
      to drop at the root), any other argument is entered. */
  function Cd(path: Path, arg: string): (r: Path)
    ensures arg == "/" ==> r == []
    ensures arg != "/" ==> (r <= path && |r| + 1 >= |path|) || (path <= r && |r| == |path| + 1)
  {
    if arg == "/" then []
    else if arg == ".." then (if |path| == 0 then [] else path[..|path| - 1])
    else path + [arg]
  }

  /** A command line, split into words: `cd` moves the current folder and ends
      any listing, `ls` starts one.  `None` is a panic: no command, `cd` without
      an argument, or an unknown command. */
  function Command(parts: seq<string>, st: State): Option<(State, bool)>
  {
    if |parts| < 2 then None
    else if parts[1] == "cd" then
      if |parts| < 3 then None
      else Some((st.(currentFolder := Cd(st.currentFolder, parts[2])), false))
    else if parts[1] == "ls" then Some((st, true))
    else None
  }

  /** A line of `ls` output, split into words: "dir name" adds an empty folder,
      "size name" a file, both at the current folder.  `None` is a panic: no
      name, a size that does not parse, or a current folder that does not exist. */
  function ListingLine(parts: seq<string>, st: State): Option<State>
  {
    if |parts| < 2 then None
    else
      var change :=
        if StartsWith(parts[0], "dir") then Some(AddDir(NewFolder(parts[1])))
        else
          match ParseNat(parts[0])
          case None => None
          case Some(size) => Some(AddEntry(File(size, parts[1])));
      if change.None? then None
      else
        match ModifyAt(st.fileSystem, st.currentFolder, change.value)
        case None => None
        case Some(fs) => Some(st.(fileSystem := fs))
  }

  /** One line of `execute_lines`; `listing` says whether an `ls` output is being
      read.  The result carries the new state and mode; `None` is a panic, which
      is also what an output line outside a listing causes. */
  function ExecLine(line: string, st: State, listing: bool): Option<(State, bool)>
  {
    if StartsWith(line, "$") then Command(Words(line), st)
    else if !listing then None
    else
      match ListingLine(Words(line), st)
      case None => None
      case Some(next) => Some((next, true))
  }

  /** The lines from index i on. */
  function ExecFrom(lines: seq<string>, i: nat, st: State, listing: bool): Option<State>
    requires i <= |lines|
    decreases |lines| - i
  {
    if i == |lines| then Some(st)
    else
      match ExecLine(lines[i], st, listing)
      case None => None
      case Some(next) => ExecFrom(lines, i + 1, next.0, next.1)
  }

  /** The whole log, starting outside a listing. */
  function Execute(lines: seq<string>, st: State): (r: Option<State>)
    ensures lines == [] ==> r == Some(st)
    ensures WellFormed(st.fileSystem) && r.Some? ==> WellFormed(r.value.fileSystem)
  {
    ExecFromKeepsWellFormedIf(lines, st);
    ExecFrom(lines, 0, st, false)
  }

  /** At a command line or at the end, a listing is over. */
  lemma ListingEnds(lines: seq<string>, i: nat, st: State)
    requires i <= |lines|
    requires i < |lines| ==> StartsWith(lines[i], "$")
    ensures ExecFrom(lines, i, st, true) == ExecFrom(lines, i, st, false)
  {
  }

  /** The body of the `ls` loop: one output line added to the tree. */
  method ListEntry(lineParts: seq<string>, st: State) returns (r: Option<State>)
    ensures r == ListingLine(lineParts, st)
  {
    if |lineParts| < 2 {
      return None;
    }
    var change;
    if StartsWith(lineParts[0], "dir") {
      change := AddDir(NewFolder(lineParts[1]));
    } else {
      var size := ParseNat(lineParts[0]);
      if size.None? {
        return None;
      }
      change := AddEntry(File(size.value, lineParts[1]));
    }
    var updated := ModifyAt(st.fileSystem, st.currentFolder, change);
    if updated.None? {
      return None;
    }
    return Some(st.(fileSystem := updated.value));
  }

  /** `execute_lines`: the command loop, with the inner loop of `ls` that peeks
      at the next line and stops before a command. */
  method ExecuteLines(lines: seq<string>, state: State) returns (r: Option<State>)
    ensures r == Execute(lines, state)
  {
    var st := state;
    var i := 0;
    while i < |lines|
      invariant i <= |lines|
      invariant Execute(lines, state) == ExecFrom(lines, i, st, false)
    {
      var line := lines[i];
      if !StartsWith(line, "$") {
        return None;
      }
      var commandParts := Words(line);
      if |commandParts| < 2 {
        return None;
      }
      if commandParts[1] == "cd" {
        if |commandParts| < 3 {
          return None;
        }
        if commandParts[2] == "/" {
          st := st.(currentFolder := []);
        } else if commandParts[2] == ".." {
          if |st.currentFolder| > 0 {
            st := st.(currentFolder := st.currentFolder[..|st.currentFolder| - 1]);
          }
        } else {
          st := st.(currentFolder := st.currentFolder + [commandParts[2]]);
        }
        i := i + 1;
      } else if commandParts[1] == "ls" {
        i := i + 1;
        while i < |lines| && !StartsWith(lines[i], "$")
          invariant i <= |lines|
          invariant Execute(lines, state) == ExecFrom(lines, i, st, true)
        {
          var updated := ListEntry(Words(lines[i]), st);
          if updated.None? {
            return None;
          }
          st := updated.value;
          i := i + 1;
        }
        ListingEnds(lines, i, st);
      } else {
        return None;
      }
    }
    return Some(st);
  }

  lemma ExecFromKeepsWellFormedIf(lines: seq<string>, st: State)
    ensures WellFormed(st.fileSystem) && ExecFrom(lines, 0, st, false).Some? ==>
              WellFormed(ExecFrom(lines, 0, st, false).value.fileSystem)
  {
    if WellFormed(st.fileSystem) {
      ExecFromKeepsWellFormed(lines, 0, st, false);
    }
  }

  /** The log keeps the tree well formed: one entry per name in every folder. */
  lemma {:induction false} ExecFromKeepsWellFormed(lines: seq<string>, i: nat, st: State, listing: bool)
    requires i <= |lines| && WellFormed(st.fileSystem)
    ensures ExecFrom(lines, i, st, listing).Some? ==> WellFormed(ExecFrom(lines, i, st, listing).value.fileSystem)
    decreases |lines| - i
  {
    if i < |lines| {
      var line := lines[i];
      var parts := Words(line);
      if !StartsWith(line, "$") && |parts| >= 2 {
        ModifyAtKeepsWellFormed(st.fileSystem, st.currentFolder, AddDir(NewFolder(parts[1])));
        if ParseNat(parts[0]).Some? {
          ModifyAtKeepsWellFormed(st.fileSystem, st.currentFolder, AddEntry(File(ParseNat(parts[0]).value, parts[1])));
        }
      }
      var next := ExecLine(line, st, listing);
      if next.Some? {
        ExecFromKeepsWellFormed(lines, i + 1, next.value.0, next.value.1);
      }
    }
  }

  /** A `cd` line moves the current folder as `Cd` says and changes nothing
      else; it ends any listing. */
  lemma CdLine(arg: string, st: State, listing: bool)
    requires IsWord(arg)
    ensures var p := st.currentFolder;
            ExecLine("$ cd " + arg, st, listing) ==
              Some((st.(currentFolder :=
                if arg == "/" then []
                else if arg == ".." then (if |p| == 0 then [] else p[..|p| - 1])
                else p + [arg]), false))
  {
    var line := "$ cd " + arg;
    assert ["$", "cd", arg][1..] == ["cd", arg] && ["cd", arg][1..] == [arg];
    assert JoinWords(["cd", arg]) == "cd" + " " + arg;
    assert line == JoinWords(["$", "cd", arg]);
    WordsOfJoin(["$", "cd", arg]);
  }

  /** A `dir` line inside a listing adds an empty folder of that name at the
      current folder, replacing one listed before. */
  lemma DirLine(name: string, st: State)
    requires IsWord(name)
    requires GetFolder(st.fileSystem, st.currentFolder).Some?
    ensures ExecLine("dir " + name, st, true).Some?
    ensures var next := ExecLine("dir " + name, st, true).value;
            && next.1
            && next.0.currentFolder == st.currentFolder
            && GetFolder(next.0.fileSystem, st.currentFolder) ==
                 Some(AddFolder(GetFolder(st.fileSystem, st.currentFolder).value, NewFolder(name)))
  {
    var line := "dir " + name;
    assert ["dir", name][1..] == [name];
    assert line == JoinWords(["dir", name]);
    WordsOfJoin(["dir", name]);
  }

  // ---------------------------------------------------------------------------
  // The two parts

  /** `day7a`: run the log from the initial state and sum the small folders. */
  method Day7a(lines: seq<string>) returns (r: Option<nat>)
    ensures r.Some? <==> Execute(lines, NewState()).Some?
    ensures r.Some? ==> r.value == SumSmall(AllFolders(Execute(lines, NewState()).value.fileSystem))
  {
    var state := ExecuteLines(lines, NewState());
    if state.None? {
      return None;
    }
    var size := SumSubfolderSizes(state.value.fileSystem, 0);
    return Some(size);
  }

  /** `day7b`: run the log, compute the space to free and report the smallest
      folder that frees enough. */
  method Day7b(lines: seq<string>) returns (r: Option<nat>)
    ensures r == match Execute(lines, NewState())
                 case None => None
                 case Some(st) => SmallestToRemove(st.fileSystem)
  {
    var state := ExecuteLines(lines, NewState());
    if state.None? {
      return None;
    }
    var root := state.value.fileSystem;
    var totalSize := GetSize(root);
    if totalSize > DiskSize {
      return None;
    }
    var freeSpace := DiskSize - totalSize;
    if freeSpace > NeededSpace {
      return None;
    }
    var minDeleteSize := NeededSpace - freeSpace;
    var candidates := FindFolderToRemove(root, minDeleteSize, []);
    assert [] + Candidates(AllFolders(root), minDeleteSize) == Candidates(AllFolders(root), minDeleteSize);
    if |candidates| == 0 {
      return None;
    }
    return Some(MinSize(candidates));
  }
}
