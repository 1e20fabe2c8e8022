/** The file organiser in functions/file_ops.py: three module-level
    collections (the files found, the extensions seen, the created category
    folders) that the `ai_` functions fill in, and the rule that sends each
    file to the folder of its extension's category. The file system is
    abstract: what `os.walk` and `os.listdir` report is passed in, and the
    moves come back as a list of (source, destination) paths. */
module FileOps {
  import opened Text

  /** Returned `None`, or raised an exception with this message. */
  datatype Status = Done | Failed(message: string)

  // ---------------------------------------------------------------------
  // Paths and extensions
  // ---------------------------------------------------------------------

  /** `os.path.join(a, b)` on POSIX: an absolute `b` replaces `a`, otherwise
      a `/` is put between them unless `a` is empty or already ends in one. */
  function PathJoin(a: string, b: string): string {
    if b != [] && b[0] == '/' then b
    else if a == [] || a[|a| - 1] == '/' then a + b
    else a + "/" + b
  }

  /** The joined path ends with `b`, and starts with `a` when `b` is
      relative; it is never empty unless both parts are. */
  lemma PathJoinParts(a: string, b: string)
    ensures EndsWith(PathJoin(a, b), b)
    ensures (b == [] || b[0] != '/') ==> StartsWith(PathJoin(a, b), a)
    ensures PathJoin(a, b) == [] ==> a == [] && b == []
  {
    var r := PathJoin(a, b);
    if !(b != [] && b[0] == '/') {
      if a == [] || a[|a| - 1] == '/' {
        assert r[..|a|] == a && r[|r| - |b|..] == b;
      } else {
        assert r[..|a|] == a && r[|r| - |b|..] == b;
      }
    }
  }

  /** `name.split('.')[-1].lower()`. */
  function Extension(name: string): string {
    var pieces := Split(name, '.');
    Lower(pieces[|pieces| - 1])
  }

  lemma {:induction false} SplitLastPiece(a: string, b: string)
    requires '.' !in b
    ensures var p := Split(a + "." + b, '.');
            |p| >= 2 && p[|p| - 1] == b
    decreases |a|
  {
    var s := a + "." + b;
    if a == [] {
      assert s == "." + b && s[1..] == b;
      SplitPlain(b, '.');
    } else {
      assert s[0] == a[0] && s[1..] == a[1..] + "." + b;
      SplitLastPiece(a[1..], b);
    }
  }

  /** The extension is the lower-cased text after the last `.`, whatever
      comes before it, a directory name with a dot included. */
  lemma ExtensionOf(prefix: string, ext: string)
    requires '.' !in ext
    ensures Extension(prefix + "." + ext) == Lower(ext)
  {
    SplitLastPiece(prefix, ext);
  }

  /** A name without a dot is its own single piece. */
  lemma ExtensionUndotted(name: string)
    requires '.' !in name
    ensures Extension(name) == Lower(name)
  {
    SplitPlain(name, '.');
  }

  // ---------------------------------------------------------------------
  // Categories (functions/file_ops.py:19-23)
  // ---------------------------------------------------------------------

  /** `FILE_TYPE_MAPPINGS`, in its insertion order. */
  const Mappings: seq<(string, set<string>)> := [
    ("images", {"jpg", "jpeg", "png", "gif", "bmp", "svg", "ico"}),
    ("documents", {"txt", "doc", "docx", "pdf", "ppt", "pptx", "xls", "xlsx", "csv"}),
    ("codes", {"py", "ipynb"})
  ]

  /** No extension belongs to two categories, and no category is named
      twice. */
  lemma MappingsDisjoint()
    ensures forall i, j :: 0 <= i < j < |Mappings| ==>
      Mappings[i].0 != Mappings[j].0 && Mappings[i].1 * Mappings[j].1 == {}
  {
    assert Mappings[0].1 * Mappings[1].1 == {};
    assert Mappings[0].1 * Mappings[2].1 == {};
    assert Mappings[1].1 * Mappings[2].1 == {};
  }

  /** The first category, in `cats`' order, whose set holds `ext`. */
  function FirstCategory(cats: seq<(string, set<string>)>, ext: string): (r: Option<string>)
    ensures r.None? <==> forall i :: 0 <= i < |cats| ==> ext !in cats[i].1
  {
    if cats == [] then None
    else if ext in cats[0].1 then Some(cats[0].0)
    else
      assert forall i :: 1 <= i < |cats| ==> cats[i] == cats[1..][i - 1];
      FirstCategory(cats[1..], ext)
  }

  /** The category found is one whose set holds `ext`. */
  lemma {:induction false} FirstCategoryHolds(cats: seq<(string, set<string>)>, ext: string)
    requires FirstCategory(cats, ext).Some?
    ensures exists i :: 0 <= i < |cats| && cats[i].0 == FirstCategory(cats, ext).value && ext in cats[i].1
  {
    if ext !in cats[0].1 {
      FirstCategoryHolds(cats[1..], ext);
      var i :| 0 <= i < |cats[1..]| && cats[1..][i].0 == FirstCategory(cats, ext).value && ext in cats[1..][i].1;
      assert cats[i + 1] == cats[1..][i];
    }
  }

  /** The category the first-match loop picks for an extension
      (functions/file_ops.py:164-168). */
  function CategoryOf(ext: string): Option<string> {
    FirstCategory(Mappings, ext)
  }

  /** Because the categories are disjoint, the first match is the only
      one: an extension is filed under a category exactly when that
      category's set holds it. */
  lemma CategoryOfIff(ext: string, c: string)
    ensures CategoryOf(ext) == Some(c) <==>
      exists i :: 0 <= i < |Mappings| && Mappings[i].0 == c && ext in Mappings[i].1
  {
    MappingsDisjoint();
    if exists i :: 0 <= i < |Mappings| && Mappings[i].0 == c && ext in Mappings[i].1 {
      var i :| 0 <= i < |Mappings| && Mappings[i].0 == c && ext in Mappings[i].1;
      var r := CategoryOf(ext);
      FirstCategoryHolds(Mappings, ext);
      var j :| 0 <= j < |Mappings| && Mappings[j].0 == r.value && ext in Mappings[j].1;
      assert ext in Mappings[i].1 * Mappings[j].1;
    }
  }

  /** The categories among `cats` with an extension in `types`
      (`needed_folders`, functions/file_ops.py:117-120). */
  function Needed(cats: seq<(string, set<string>)>, types: set<string>): (r: set<string>)
    ensures forall c :: c in r <==>
      exists i :: 0 <= i < |cats| && cats[i].0 == c && cats[i].1 * types != {}
    decreases |cats|
  {
    if cats == [] then {}
    else
      var n := |cats| - 1;
      var earlier := Needed(cats[..n], types);
      assert forall i :: 0 <= i < n ==> cats[..n][i] == cats[i];
      if cats[n].1 * types != {} then earlier + {cats[n].0} else earlier
  }

  function NeededFolders(types: set<string>): set<string> {
    Needed(Mappings, types)
  }

  /** A folder is needed exactly when some extension seen is filed under
      its category. */
  lemma NeededIff(types: set<string>, c: string)
    ensures c in NeededFolders(types) <==> exists t :: t in types && CategoryOf(t) == Some(c)
  {
    if c in NeededFolders(types) {
      var i :| 0 <= i < |Mappings| && Mappings[i].0 == c && Mappings[i].1 * types != {};
      var t :| t in Mappings[i].1 * types;
      CategoryOfIff(t, c);
    }
    if exists t :: t in types && CategoryOf(t) == Some(c) {
      var t :| t in types && CategoryOf(t) == Some(c);
      CategoryOfIff(t, c);
      var i :| 0 <= i < |Mappings| && Mappings[i].0 == c && t in Mappings[i].1;
      assert t in Mappings[i].1 * types;
    }
  }

  // ---------------------------------------------------------------------
  // Specification of the three globals' updates
  // ---------------------------------------------------------------------

  /** One `os.walk` step: a directory and the files in it. */
  datatype WalkStep = WalkStep(root: string, files: seq<string>)

  /** The paths of one directory's files. */
  function Joined(root: string, files: seq<string>): (r: seq<string>)
    ensures |r| == |files|
  {
    if files == [] then []
    else Joined(root, files[..|files| - 1]) + [PathJoin(root, files[|files| - 1])]
  }

  lemma {:induction false} JoinedIff(root: string, files: seq<string>, p: string)
    ensures p in Joined(root, files) <==> exists j :: 0 <= j < |files| && p == PathJoin(root, files[j])
  {
    if files != [] {
      var n := |files| - 1;
      JoinedIff(root, files[..n], p);
      assert forall j :: 0 <= j < n ==> files[..n][j] == files[j];
    }
  }

  /** Every path a walk yields, in walk order. */
  function WalkPaths(walk: seq<WalkStep>): seq<string> {
    if walk == [] then []
    else WalkPaths(walk[..|walk| - 1]) + Joined(walk[|walk| - 1].root, walk[|walk| - 1].files)
  }

  /** The walk yields exactly the joined path of each file of each
      directory. */
  lemma {:induction false} WalkPathsIff(walk: seq<WalkStep>, p: string)
    ensures p in WalkPaths(walk) <==>
      exists i, j :: 0 <= i < |walk| && 0 <= j < |walk[i].files| && p == PathJoin(walk[i].root, walk[i].files[j])
  {
    if walk != [] {
      var n := |walk| - 1;
      var init := walk[..n];
      WalkPathsIff(init, p);
      assert forall i :: 0 <= i < n ==> init[i] == walk[i];
      JoinedIff(walk[n].root, walk[n].files, p);
    }
  }

  /** The extensions of the names that hold a dot. */
  function FileTypes(files: seq<string>): set<string> {
    if files == [] then {}
    else
      var f := files[|files| - 1];
      FileTypes(files[..|files| - 1]) + (if '.' in f then {Extension(f)} else {})
  }

  /** An extension is collected exactly when some dotted name has it. */
  lemma {:induction false} FileTypesIff(files: seq<string>, t: string)
    ensures t in FileTypes(files) <==>
      exists i :: 0 <= i < |files| && '.' in files[i] && Extension(files[i]) == t
  {
    if files != [] {
      var n := |files| - 1;
      FileTypesIff(files[..n], t);
      assert forall i :: 0 <= i < n ==> files[..n][i] == files[i];
    }
  }

  /** The folder paths `ai_create_folders` records. */
  function Created(basePath: string, needed: set<string>): (r: map<string, string>)
    ensures r.Keys == needed
    ensures forall c :: c in needed ==> r[c] == PathJoin(basePath, c)
  {
    map c | c in needed :: PathJoin(basePath, c)
  }

  /** `dest_folder` after the first-match loop: the folder recorded for the
      first category in `cats` that holds `ext`, or the empty text when no
      category holds it or its folder has not been recorded. */
  function FolderFor(cats: seq<(string, set<string>)>, ext: string, folderPaths: map<string, string>): string {
    match FirstCategory(cats, ext)
    case None => ""
    case Some(c) => Lookup(folderPaths, c)
  }

  /** `folder_paths.get(c)`, with the empty text for a missing key (both are
      falsy for the `if dest_folder:` that follows). */
  function Lookup(folderPaths: map<string, string>, c: string): string {
    if c in folderPaths then folderPaths[c] else ""
  }

  /** The folder loop of `ai_create_folders`: each needed category is
      recorded with its path under `basePath`, over whatever was there. */
  method AddFolders(start: map<string, string>, basePath: string, needed: set<string>)
    returns (paths: map<string, string>)
    ensures paths == start + Created(basePath, needed)
  {
    paths := start;
    var rest := needed;
    while rest != {}
      invariant rest <= needed
      invariant paths == start + Created(basePath, needed - rest)
      decreases rest
    {
      var folder :| folder in rest;
      CreatedAdd(start, basePath, needed - rest, folder);
      paths := paths[folder := PathJoin(basePath, folder)];
      assert (needed - rest) + {folder} == needed - (rest - {folder});
      rest := rest - {folder};
    }
    assert needed - rest == needed;
  }

  /** Recording one more folder. */
  lemma CreatedAdd(m: map<string, string>, basePath: string, done: set<string>, folder: string)
    ensures (m + Created(basePath, done))[folder := PathJoin(basePath, folder)]
         == m + Created(basePath, done + {folder})
  {
  }

  /** Where a listed name is moved to, if anywhere: nowhere without a dot,
      nowhere when its extension has no category or the category has no
      folder yet (or an empty one), otherwise into that folder. */
  function Destination(filename: string, folderPaths: map<string, string>): Option<string> {
    if '.' !in filename then None
    else
      var d := FolderFor(Mappings, Extension(filename), folderPaths);
      if d != "" then Some(PathJoin(d, filename)) else None
  }

  /** The moves performed for a listing, in listing order. */
  function Moves(sourceFolder: string, listing: seq<string>, folderPaths: map<string, string>): seq<(string, string)> {
    if listing == [] then []
    else
      var f := listing[|listing| - 1];
      var d := Destination(f, folderPaths);
      Moves(sourceFolder, listing[..|listing| - 1], folderPaths)
        + (if d.Some? then [(PathJoin(sourceFolder, f), d.value)] else [])
  }

  /** Every move takes a listed name with an extension of some category to
      that category's folder, and every such name is moved. */
  lemma {:induction false} MovesIff(sourceFolder: string, listing: seq<string>,
                                    folderPaths: map<string, string>, src: string, dst: string)
    ensures (src, dst) in Moves(sourceFolder, listing, folderPaths) <==>
      exists i :: 0 <= i < |listing| && src == PathJoin(sourceFolder, listing[i])
        && Destination(listing[i], folderPaths) == Some(dst)
  {
    if listing != [] {
      var n := |listing| - 1;
      MovesIff(sourceFolder, listing[..n], folderPaths, src, dst);
      assert forall i :: 0 <= i < n ==> listing[..n][i] == listing[i];
    }
  }

  /** After the folders have been created under `basePath` for the
      extensions seen, a listed file with one of those extensions goes to
      `basePath/<category>/<name>`. */
  lemma CreatedThenMoved(basePath: string, types: set<string>, folderPaths: map<string, string>,
                         prefix: string, ext: string, i: nat)
    requires forall c :: c in NeededFolders(types) ==> c in folderPaths && folderPaths[c] == PathJoin(basePath, c)
    requires '.' !in ext && Lower(ext) in types
    requires i < |Mappings| && Lower(ext) in Mappings[i].1
    ensures Destination(prefix + "." + ext, folderPaths)
         == Some(PathJoin(PathJoin(basePath, Mappings[i].0), prefix + "." + ext))
  {
    var c := Mappings[i].0;
    CategoryOfIff(Lower(ext), c);
    NeededAt(types, i, Lower(ext));
    MovedInto(basePath, folderPaths, prefix, ext, c);
  }

  /** A category with an extension among `types` is needed. */
  lemma NeededAt(types: set<string>, i: nat, t: string)
    requires i < |Mappings| && t in types && t in Mappings[i].1
    ensures Mappings[i].0 in NeededFolders(types)
  {
    assert t in Mappings[i].1 * types;
  }

  /** A name whose extension is filed under `c` goes into `c`'s folder
      under `basePath`. */
  lemma MovedInto(basePath: string, folderPaths: map<string, string>, prefix: string, ext: string, c: string)
    requires '.' !in ext && CategoryOf(Lower(ext)) == Some(c)
    requires c in folderPaths && folderPaths[c] == PathJoin(basePath, c)
    ensures Destination(prefix + "." + ext, folderPaths)
         == Some(PathJoin(PathJoin(basePath, c), prefix + "." + ext))
  {
    var name := prefix + "." + ext;
    assert name[|prefix|] == '.';
    ExtensionOf(prefix, ext);
    PathJoinParts(basePath, c);
    DestinationOf(name, folderPaths, c);
  }

  /** A dotted name whose extension is filed under `c` goes into `c`'s
      folder when there is one. */
  lemma DestinationOf(filename: string, folderPaths: map<string, string>, c: string)
    requires '.' in filename && CategoryOf(Extension(filename)) == Some(c)
    requires c in folderPaths && folderPaths[c] != ""
    ensures Destination(filename, folderPaths) == Some(PathJoin(folderPaths[c], filename))
  {
    assert FolderFor(Mappings, Extension(filename), folderPaths) == folderPaths[c];
  }


  // ---------------------------------------------------------------------
  // The module state and the `ai_` functions
  // ---------------------------------------------------------------------

  /** The module-level `file_list`, `unique_file_types` and `folder_paths`,
      which start empty and are never reset. */
  class FileOrganizer {
    var fileList: seq<string>
    var uniqueFileTypes: set<string>
    var folderPaths: map<string, string>

    constructor ()
      ensures fileList == [] && uniqueFileTypes == {} && folderPaths == map[]
    {
      fileList := [];
      uniqueFileTypes := {};
      folderPaths := map[];
    }

    /** `ai_get_file_list`: `absPath` is `os.path.abspath(path)` and `walk`
        what `os.walk` reports, `None` when the path does not exist. A
        missing path raises before anything is appended; otherwise every
        file found is appended to what earlier calls collected. */
    method GetFileList(absPath: string, walk: Option<seq<WalkStep>>) returns (status: Status)
      modifies this
      ensures walk.None? ==> status == Failed("Directory not found: " + absPath) && fileList == old(fileList)
      ensures walk.Some? ==> status == Done && fileList == old(fileList) + WalkPaths(walk.value)
      ensures uniqueFileTypes == old(uniqueFileTypes) && folderPaths == old(folderPaths)
    {
      if walk.None? {
        return Failed("Directory not found: " + absPath);
      }
      var steps := walk.value;
      for i := 0 to |steps|
        invariant fileList == old(fileList) + WalkPaths(steps[..i])
        invariant uniqueFileTypes == old(uniqueFileTypes) && folderPaths == old(folderPaths)
      {
        var root, files := steps[i].root, steps[i].files;
        ghost var before := fileList;
        for j := 0 to |files|
          invariant fileList == before + Joined(root, files[..j])
          invariant uniqueFileTypes == old(uniqueFileTypes) && folderPaths == old(folderPaths)
        {
          assert files[..j + 1][..j] == files[..j];
          fileList := fileList + [PathJoin(root, files[j])];
        }
        assert files[..|files|] == files;
        assert steps[..i + 1][..i] == steps[..i];
      }
      assert steps[..|steps|] == steps;
      status := Done;
    }

    /** `ai_get_unique_file_types`: adds the extension of every collected
        name that holds a dot; nothing is removed. */
    method GetUniqueFileTypes()
      modifies this
      ensures uniqueFileTypes == old(uniqueFileTypes) + FileTypes(fileList)
      ensures fileList == old(fileList) && folderPaths == old(folderPaths)
    {
      for i := 0 to |fileList|
        invariant fileList == old(fileList) && folderPaths == old(folderPaths)
        invariant uniqueFileTypes == old(uniqueFileTypes) + FileTypes(fileList[..i])
      {
        var file := fileList[i];
        assert fileList[..i + 1][..i] == fileList[..i];
        if '.' in file {
          var fileType := Extension(file);
          uniqueFileTypes := uniqueFileTypes + {fileType};
        }
      }
      assert fileList[..|fileList|] == fileList;
    }

    /** The folder bookkeeping of `ai_create_folders`: the categories with
        an extension seen get the path `basePath/<category>`; other entries
        stay as they were. */
    method CreateFolders(basePath: string)
      modifies this
      ensures folderPaths == old(folderPaths) + Created(basePath, NeededFolders(uniqueFileTypes))
      ensures fileList == old(fileList) && uniqueFileTypes == old(uniqueFileTypes)
    {
      var needed := CollectNeeded(uniqueFileTypes);
      folderPaths := AddFolders(folderPaths, basePath, needed);
    }

    /** The destination choice of `ai_move_files_to_folder`: `listing` is
        what `os.listdir` reports, `None` when the folder does not exist. A
        missing folder raises before anything moves; otherwise the moves
        are those the folder bookkeeping allows, in listing order. */
    method MoveFilesToFolder(sourceFolder: string, listing: Option<seq<string>>)
      returns (status: Status, moves: seq<(string, string)>)
      ensures listing.None? ==> status == Failed("Source folder not found: " + sourceFolder) && moves == []
      ensures listing.Some? ==> status == Done && moves == Moves(sourceFolder, listing.value, folderPaths)
    {
      moves := [];
      if listing.None? {
        return Failed("Source folder not found: " + sourceFolder), [];
      }
      var names := listing.value;
      for i := 0 to |names|
        invariant moves == Moves(sourceFolder, names[..i], folderPaths)
      {
        var filename := names[i];
        assert names[..i + 1][..i] == names[..i];
        if '.' !in filename {
          continue;
        }
        var fileExtension := Extension(filename);
        var sourcePath := PathJoin(sourceFolder, filename);
        var destFolder := ChooseFolder(Mappings, fileExtension, folderPaths);
        if destFolder != "" {
          moves := moves + [(sourcePath, PathJoin(destFolder, filename))];
        }
      }
      assert names[..|names|] == names;
      status := Done;
    }
  }

  /** The first loop of `ai_create_folders`: the categories, in mapping
      order, with an extension among `types`. */
  method CollectNeeded(types: set<string>) returns (needed: set<string>)
    ensures needed == NeededFolders(types)
  {
    needed := {};
    for i := 0 to |Mappings|
      invariant needed == Needed(Mappings[..i], types)
    {
      assert Mappings[..i + 1][..i] == Mappings[..i];
      if Mappings[i].1 * types != {} {
        needed := needed + {Mappings[i].0};
      }
    }
    assert Mappings[..|Mappings|] == Mappings;
  }

  /** The first-match loop of `ai_move_files_to_folder` over `cats`. */
  method ChooseFolder(cats: seq<(string, set<string>)>, ext: string, folderPaths: map<string, string>)
    returns (destFolder: string)
    ensures destFolder == FolderFor(cats, ext, folderPaths)
  {
    destFolder := "";
    for k := 0 to |cats|
      invariant FirstCategory(cats[..k], ext).None?
      invariant destFolder == ""
    {
      FirstCategoryPrefix(cats, k, ext);
      if ext in cats[k].1 {
        destFolder := Lookup(folderPaths, cats[k].0);
        FirstCategoryStops(cats, k, ext);
        return;
      }
    }
    assert cats[..|cats|] == cats;
  }

  lemma FirstCategoryPrefix(cats: seq<(string, set<string>)>, k: nat, ext: string)
    requires k < |cats|
    ensures FirstCategory(cats[..k + 1], ext) ==
      if FirstCategory(cats[..k], ext).Some? then FirstCategory(cats[..k], ext)
      else if ext in cats[k].1 then Some(cats[k].0) else None
  {
    FirstCategoryAppend(cats[..k], [cats[k]], ext);
    assert cats[..k] + [cats[k]] == cats[..k + 1];
  }

  lemma {:induction false} FirstCategoryAppend(a: seq<(string, set<string>)>, b: seq<(string, set<string>)>, ext: string)
    ensures FirstCategory(a + b, ext) ==
      if FirstCategory(a, ext).Some? then FirstCategory(a, ext) else FirstCategory(b, ext)
  {
    if a == [] {
      assert a + b == b;
    } else {
      assert (a + b)[0] == a[0] && (a + b)[1..] == a[1..] + b;
      FirstCategoryAppend(a[1..], b, ext);
    }
  }

  /** Once a category matches, the rest of the list is never looked at. */
  lemma FirstCategoryStops(cats: seq<(string, set<string>)>, k: nat, ext: string)
    requires k < |cats| && FirstCategory(cats[..k + 1], ext).Some?
    ensures FirstCategory(cats, ext) == FirstCategory(cats[..k + 1], ext)
  {
    FirstCategoryAppend(cats[..k + 1], cats[k + 1..], ext);
    assert cats[..k + 1] + cats[k + 1..] == cats;
  }
}
