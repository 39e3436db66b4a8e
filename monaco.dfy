/**
 * The editor panel of the web UI: the language it picks for a file, and the `models`
 * object (file path -> editor model) that the sidebar's rename, delete and create
 * actions edit, with the folder tree the sidebar draws from it.
 */
module Monaco {
  import opened Wrappers
  import opened Text
  import Lists

  // ---------------------------------------------------------------------------------
  // getFileLanguage

  /** The extensions the editor knows, lower case, and their languages. */
  const Languages: map<string, string> := map[
    "js" := "javascript", "jsx" := "javascript", "ts" := "typescript", "tsx" := "typescript",
    "html" := "html", "css" := "css", "py" := "python", "java" := "java", "rb" := "ruby",
    "php" := "php", "cpp" := "c++", "c" := "c", "swift" := "swift", "kt" := "kotlin",
    "json" := "json", "xml" := "xml", "sql" := "sql", "sh" := "shell"]

  /** `getFileLanguage`: the language of the lower-cased extension, 'plaintext' when the
      extension is not listed. */
  function FileLanguage(fileType: string): string {
    var t := Lower(fileType);
    if t in Languages then Languages[t] else "plaintext"
  }

  /** `file.split(".").pop()`: what follows the last '.', the whole name when it has none. */
  function Extension(name: string): (ext: string)
    ensures '.' !in ext
  {
    var parts := Split(name, ".");
    SplitPartsFree(name, '.');
    parts[|parts| - 1]
  }

  /** The language `createModel` gives a file. */
  function LanguageOf(name: string): string {
    FileLanguage(Extension(name))
  }

  /** The extension is the text after the last '.'. */
  lemma ExtensionAfterLastDot(stem: string, ext: string)
    requires '.' !in ext
    ensures Extension(stem + "." + ext) == ext
  {
    SplitConcat(stem, '.', ext);
    SplitNoSep(ext, '.');
  }

  /** A name without '.' is its own extension. */
  lemma ExtensionNoDot(name: string)
    requires '.' !in name
    ensures Extension(name) == name
  {
    SplitNoSep(name, '.');
  }

  /** A listed extension picks its language whatever the case of its letters; any other
      extension picks 'plaintext'. */
  lemma LanguageOfName(stem: string, ext: string)
    requires '.' !in ext
    ensures Lower(ext) in Languages ==> LanguageOf(stem + "." + ext) == Languages[Lower(ext)]
    ensures Lower(ext) !in Languages ==> LanguageOf(stem + "." + ext) == "plaintext"
  {
    ExtensionAfterLastDot(stem, ext);
  }

  /** Upper-case extensions are recognised. */
  lemma UpperCaseExtension()
    ensures LanguageOf("App.JSX") == "javascript"
  {
    LowerJsx();
    JsxListed();
    LanguageOfName("App", "JSX");
    assert "App" + "." + "JSX" == "App.JSX";
  }

  lemma LowerJsx()
    ensures Lower("JSX") == "jsx"
  {
    var l := Lower("JSX");
    assert l[0] == 'j' && l[1] == 's' && l[2] == 'x';
  }

  lemma JsxListed()
    ensures "jsx" in Languages && Languages["jsx"] == "javascript"
  {
  }

  /** Only the part after the last '.' counts. */
  lemma LastDotCounts()
    ensures LanguageOf("main.py.bak") == "plaintext"
  {
    LowerBak();
    BakUnlisted();
    LanguageOfName("main.py", "bak");
    assert "main.py" + "." + "bak" == "main.py.bak";
  }

  lemma LowerBak()
    ensures Lower("bak") == "bak"
  {
    LowerKeeps("bak");
  }

  lemma BakUnlisted()
    ensures "bak" !in Languages
  {
  }

  // ---------------------------------------------------------------------------------
  // Key lists: the insertion order of the `models` object

  /** The list with `k` added at the end, unless it is already there (assigning to an
      existing key keeps its place). */
  function Put(keys: seq<string>, k: string): (r: seq<string>)
    ensures forall x :: x in r <==> x in keys || x == k
  {
    if k in keys then keys else keys + [k]
  }

  /** The list without `k`, the others in order. */
  function Without(keys: seq<string>, k: string): seq<string>
    decreases |keys|
  {
    if |keys| == 0 then []
    else (if keys[0] == k then [] else [keys[0]]) + Without(keys[1..], k)
  }

  /** The list without each of `gone`, removed one after the other. */
  function WithoutAll(keys: seq<string>, gone: seq<string>): seq<string>
    decreases |gone|
  {
    if |gone| == 0 then keys
    else Without(WithoutAll(keys, gone[..|gone| - 1]), gone[|gone| - 1])
  }

  lemma {:induction false} WithoutFacts(keys: seq<string>, k: string)
    ensures forall x :: x in Without(keys, k) <==> x in keys && x != k
    ensures Lists.NoDup(keys) ==> Lists.NoDup(Without(keys, k))
    decreases |keys|
  {
    if |keys| > 0 {
      WithoutFacts(keys[1..], k);
      var rest := Without(keys[1..], k);
      var head: seq<string> := if keys[0] == k then [] else [keys[0]];
      assert Without(keys, k) == head + rest;
      forall x ensures x in Without(keys, k) <==> x in keys && x != k {
        assert x in keys <==> x == keys[0] || x in keys[1..];
      }
      if Lists.NoDup(keys) {
        assert Lists.NoDup(keys[1..]);
        assert keys[0] !in keys[1..];
        assert keys[0] !in rest;
      }
    }
  }

  lemma {:induction false} WithoutAllFacts(keys: seq<string>, gone: seq<string>)
    ensures forall x :: x in WithoutAll(keys, gone) <==> x in keys && x !in gone
    ensures Lists.NoDup(keys) ==> Lists.NoDup(WithoutAll(keys, gone))
    decreases |gone|
  {
    if |gone| > 0 {
      var init := gone[..|gone| - 1];
      WithoutAllFacts(keys, init);
      WithoutFacts(WithoutAll(keys, init), gone[|gone| - 1]);
      assert gone == init + [gone[|gone| - 1]];
    }
  }

  lemma PutNoDup(keys: seq<string>, k: string)
    requires Lists.NoDup(keys)
    ensures Lists.NoDup(Put(keys, k))
  {
  }

  // ---------------------------------------------------------------------------------
  // The models object

  /** An editor model: its text, its language and the `isFolder` flag the delete action
      reads. */
  datatype Model = Model(code: string, language: string, isFolder: bool)

  /** What a key holds: a model, or `undefined` (`None`), which is what renaming a path
      that has no model leaves under the new path. */
  type Slot = Option<Model>

  /** `models[k]`: `undefined` for a missing key. */
  function Lookup(models: map<string, Slot>, k: string): Slot {
    if k in models then models[k] else None
  }

  /** `models[p]?.isFolder`. */
  predicate IsFolder(models: map<string, Slot>, p: string) {
    Lookup(models, p).Some? && Lookup(models, p).value.isFolder
  }

  /** The models after a successful rename: the new key gets what the old key held, and
      the old key goes. */
  function Renamed(models: map<string, Slot>, oldPath: string, newPath: string): map<string, Slot> {
    models[newPath := Lookup(models, oldPath)] - {oldPath}
  }

  /** The keys that start with `p`, in key order (`Object.keys(models).filter(...)`). */
  function Prefixed(keys: seq<string>, p: string): (r: seq<string>)
    ensures forall x :: x in r <==> x in keys && StartsWith(x, p)
    decreases |keys|
  {
    if |keys| == 0 then []
    else (if StartsWith(keys[0], p) then [keys[0]] else []) + Prefixed(keys[1..], p)
  }

  /** The files deleted before the first one the server refuses (the refusal throws and
      ends the loop). */
  function Done(files: seq<string>, serverDeletes: string -> bool): (r: seq<string>)
    decreases |files|
  {
    if |files| == 0 || !serverDeletes(files[0]) then []
    else [files[0]] + Done(files[1..], serverDeletes)
  }

  /** The keys `deleteFileAPI(p)` removes: for a folder, the keys that start with `p` up to
      the first refusal; otherwise `p` itself when the server deletes it. */
  function Deleted(keys: seq<string>, models: map<string, Slot>, p: string,
                   serverDeletes: string -> bool): seq<string>
  {
    if IsFolder(models, p) then Done(Prefixed(keys, p), serverDeletes)
    else if serverDeletes(p) then [p] else []
  }

  /** The keys of a list, as a set. */
  function Members(xs: seq<string>): set<string> {
    set x | x in xs
  }

  /** The deletions from the `i`-th key on: none when the server refuses it, otherwise it
      and those after it. */
  lemma DoneStep(files: seq<string>, i: nat, serverDeletes: string -> bool)
    requires i < |files|
    ensures !serverDeletes(files[i]) ==> files[..i] + Done(files[i..], serverDeletes) == files[..i]
    ensures serverDeletes(files[i]) ==>
      files[..i] + Done(files[i..], serverDeletes) == files[..i + 1] + Done(files[i + 1..], serverDeletes)
  {
    assert files[i..][0] == files[i] && files[i..][1..] == files[i + 1..];
    assert files[..i + 1] == files[..i] + [files[i]];
  }

  /** Deleting one more key: the key list loses it and the map loses it. */
  lemma DeletedOneMore(keys: seq<string>, models: map<string, Slot>, gone: seq<string>, k: string)
    ensures WithoutAll(keys, gone + [k]) == Without(WithoutAll(keys, gone), k)
    ensures models - Members(gone + [k]) == (models - Members(gone)) - {k}
  {
    assert (gone + [k])[..|gone|] == gone;
    assert Members(gone + [k]) == Members(gone) + {k};
  }

  /** The name `createNewFile` uses. */
  const NewFileName := "newFile.js"

  class Workspace {
    /** The keys of `models` in insertion order. */
    var keys: seq<string>
    var models: map<string, Slot>

    /** Every key once, and exactly the keys of the map. */
    ghost predicate Valid()
      reads this
    {
      Lists.NoDup(keys) && forall k :: k in models <==> k in keys
    }

    /** The models object as the editor is given it. */
    constructor (keys0: seq<string>, models0: map<string, Slot>)
      requires Lists.NoDup(keys0) && forall k :: k in models0 <==> k in keys0
      ensures Valid() && keys == keys0 && models == models0
    {
      keys := keys0;
      models := models0;
    }

    /** `renameFileAPI`: `serverRenames` tells whether the server's rename succeeds;
        when it fails, the error is caught and nothing changes. */
    method Rename(oldPath: string, newPath: string, serverRenames: bool)
      requires Valid()
      modifies this
      ensures Valid()
      ensures serverRenames ==>
        models == Renamed(old(models), oldPath, newPath) && keys == Without(Put(old(keys), newPath), oldPath)
      ensures !serverRenames ==> models == old(models) && keys == old(keys)
    {
      if !serverRenames {
        return;
      }
      models := models[newPath := Lookup(models, oldPath)];
      keys := Put(keys, newPath);
      PutNoDup(old(keys), newPath);
      models := models - {oldPath};
      WithoutFacts(keys, oldPath);
      keys := Without(keys, oldPath);
    }

    /** `deleteFileAPI`: `serverDeletes` tells, for each path, whether the server's
        delete succeeds; the first failure throws, which the action catches. */
    method Delete(filePath: string, serverDeletes: string -> bool)
      requires Valid()
      modifies this
      ensures Valid()
      ensures var gone := Deleted(old(keys), old(models), filePath, serverDeletes);
        keys == WithoutAll(old(keys), gone) && models == old(models) - Members(gone)
    {
      if IsFolder(models, filePath) {
        var filesToDelete := Prefixed(keys, filePath);
        DeleteEach(filesToDelete, serverDeletes);
      } else {
        if !serverDeletes(filePath) {
          assert keys == WithoutAll(keys, []);
          return;
        }
        WithoutFacts(keys, filePath);
        keys := Without(keys, filePath);
        models := models - {filePath};
        assert [filePath][..0] == [];
      }
    }

    /** The loop over the keys to delete: each is deleted on the server, then from
        `models`, until the server refuses one. */
    method DeleteEach(filesToDelete: seq<string>, serverDeletes: string -> bool)
      requires Valid()
      modifies this
      ensures Valid()
      ensures var gone := Done(filesToDelete, serverDeletes);
        keys == WithoutAll(old(keys), gone) && models == old(models) - Members(gone)
    {
      assert filesToDelete[0..] == filesToDelete;
      for i := 0 to |filesToDelete|
        invariant Done(filesToDelete, serverDeletes)
                  == filesToDelete[..i] + Done(filesToDelete[i..], serverDeletes)
        invariant keys == WithoutAll(old(keys), filesToDelete[..i])
        invariant models == old(models) - Members(filesToDelete[..i])
        invariant Valid()
      {
        var file := filesToDelete[i];
        DoneStep(filesToDelete, i, serverDeletes);
        if !serverDeletes(file) {
          return;
        }
        DeletedOneMore(old(keys), old(models), filesToDelete[..i], file);
        assert filesToDelete[..i + 1] == filesToDelete[..i] + [file];
        WithoutFacts(keys, file);
        keys := Without(keys, file);
        models := models - {file};
      }
      assert filesToDelete[..|filesToDelete|] == filesToDelete;
      assert filesToDelete[|filesToDelete|..] == [];
      assert Done(filesToDelete, serverDeletes) == filesToDelete;
      assert keys == WithoutAll(old(keys), filesToDelete);
      assert models == old(models) - Members(filesToDelete);
    }

    /** `createNewFile`: adds an empty JavaScript model under "newFile.js" unless that key
        already holds a model; the server call after it cannot undo the addition. */
    method CreateNewFile()
      requires Valid()
      modifies this
      ensures Valid()
      ensures Lookup(old(models), NewFileName).Some? ==> models == old(models) && keys == old(keys)
      ensures Lookup(old(models), NewFileName).None? ==>
        models == old(models)[NewFileName := Some(Model("", "javascript", false))]
        && keys == Put(old(keys), NewFileName)
    {
      if Lookup(models, NewFileName).None? {
        models := models[NewFileName := Some(Model("", "javascript", false))];
        PutNoDup(keys, NewFileName);
        keys := Put(keys, NewFileName);
      }
    }

    /** `populateSidebar`: the folder nodes it creates, in order, and where each file goes;
        `finished` is false when a key holding `undefined` stops the loop. */
    method PopulateSidebar() returns (tree: Tree)
      ensures tree == Sidebar(keys, models)
    {
      var folders: seq<string> := [];
      var files: seq<(string, Option<string>)> := [];
      for n := 0 to |keys|
        invariant Sidebar(keys[..n], models) == Tree(folders, files, true)
      {
        assert keys[..n + 1][..n] == keys[..n];
        tree := PlaceFile(folders, files, keys[n], Lookup(models, keys[n]));
        if !tree.finished {
          StaysStopped(keys, models, n + 1);
          return;
        }
        folders, files := tree.folders, tree.files;
      }
      assert keys[..|keys|] == keys;
      return Tree(folders, files, true);
    }
  }

  /** One turn of the outer loop of `populateSidebar`: the folders on the way to `filename`
      are made, then the file is placed, unless its key holds `undefined`. */
  method PlaceFile(folders0: seq<string>, files0: seq<(string, Option<string>)>, filename: string, slot: Slot)
    returns (tree: Tree)
    ensures tree == Place(folders0, files0, filename, slot)
  {
    var folders, files := folders0, files0;
    var parts := PathParts(filename);
    var currentFolder: Option<string> := None;
    for index := 0 to |parts|
      invariant folders == AddAll(folders0, Prefixes(parts)[..Cut(index, |parts|)])
      invariant currentFolder == FolderAt(parts, Cut(index, |parts|))
      invariant index < |parts| ==> files == files0
      invariant index == |parts| ==> files == files0 + [(filename, Parent(parts))]
      invariant index == |parts| ==> slot.Some?
    {
      if index == |parts| - 1 {
        if slot.None? {
          assert Prefixes(parts)[..index] == Prefixes(parts);
          return Tree(folders, files, false);
        }
        files := files + [(filename, currentFolder)];
      } else {
        var folderName := Join(parts[..index + 1], "/");
        MeetFolder(folders0, parts, index);
        folders := Put(folders, folderName);
        currentFolder := Some(folderName);
      }
    }
    assert Prefixes(parts)[..|parts| - 1] == Prefixes(parts);
    return Tree(folders, files, true);
  }

  // ---------------------------------------------------------------------------------
  // populateSidebar

  /** The sidebar: the folder names in the order their nodes were made, each file with
      the folder it is placed in (`None` for the top level), and whether the loop ran to
      the end. */
  datatype Tree = Tree(folders: seq<string>, files: seq<(string, Option<string>)>, finished: bool)

  /** `fullPath.split(/[\/\\]/)`: the pieces between '/' and '\' separators. */
  function PathParts(path: string): (parts: seq<string>)
    ensures |parts| > 0
  {
    Split(MapChar(path, '\\', '/'), "/")
  }

  /** The folder names of a path: its first 1, 2, ... pieces joined with '/', all but the
      whole path. */
  function Prefixes(parts: seq<string>): (r: seq<string>)
    requires |parts| > 0
    ensures |r| == |parts| - 1
  {
    seq(|parts| - 1, j requires 0 <= j < |parts| - 1 => Join(parts[..j + 1], "/"))
  }

  /** How many folder names the inner loop has met after `index` steps. */
  function Cut(index: nat, n: nat): nat {
    if index < n then index else if n == 0 then 0 else n - 1
  }

  /** The folder the inner loop is in after meeting `c` folder names. */
  function FolderAt(parts: seq<string>, c: nat): Option<string>
    requires c <= |parts|
  {
    if c == 0 then None else Some(Join(parts[..c], "/"))
  }

  /** The folder list after meeting each of `names` in order. */
  function AddAll(folders: seq<string>, names: seq<string>): seq<string>
    decreases |names|
  {
    if |names| == 0 then folders
    else Put(AddAll(folders, names[..|names| - 1]), names[|names| - 1])
  }

  /** The inner loop meets the `index`-th folder name and adds it to the list. */
  lemma MeetFolder(folders: seq<string>, parts: seq<string>, index: nat)
    requires index < |parts| - 1
    ensures AddAll(folders, Prefixes(parts)[..index + 1])
      == Put(AddAll(folders, Prefixes(parts)[..index]), Join(parts[..index + 1], "/"))
  {
    var pre := Prefixes(parts);
    assert pre[..index + 1][..index] == pre[..index];
    assert pre[..index + 1][index] == Join(parts[..index + 1], "/");
  }

  /** The folder where `populateSidebar` places a path. */
  function Parent(parts: seq<string>): Option<string>
    requires |parts| > 0
  {
    if |parts| == 1 then None else Some(Join(parts[..|parts| - 1], "/"))
  }

  /** The sidebar built from the keys, in order. */
  function Sidebar(keys: seq<string>, models: map<string, Slot>): Tree
    decreases |keys|
  {
    if |keys| == 0 then Tree([], [], true)
    else
      var prev := Sidebar(keys[..|keys| - 1], models);
      var k := keys[|keys| - 1];
      if !prev.finished then prev else Place(prev.folders, prev.files, k, Lookup(models, k))
  }

  /** The sidebar once the file `k`, holding `slot`, is met: its folders are added, and it
      is placed unless it holds `undefined`, which stops the loop. */
  function Place(folders: seq<string>, files: seq<(string, Option<string>)>, k: string, slot: Slot): Tree {
    var parts := PathParts(k);
    var added := AddAll(folders, Prefixes(parts));
    if slot.None? then Tree(added, files, false)
    else Tree(added, files + [(k, Parent(parts))], true)
  }

  /** Once a key holding `undefined` has stopped the loop, later keys add nothing. */
  lemma {:induction false} StaysStopped(keys: seq<string>, models: map<string, Slot>, n: nat)
    requires n <= |keys| && !Sidebar(keys[..n], models).finished
    ensures Sidebar(keys, models) == Sidebar(keys[..n], models)
    decreases |keys| - n
  {
    if n < |keys| {
      assert keys[..n + 1][..n] == keys[..n];
      StaysStopped(keys, models, n + 1);
    } else {
      assert keys[..n] == keys;
    }
  }

  // ---------------------------------------------------------------------------------
  // What the actions promise

  /** A rename to a different path moves what the old key held to the new key, removes
      the old key and leaves every other key as it was. */
  lemma RenameMoves(models: map<string, Slot>, oldPath: string, newPath: string)
    requires oldPath != newPath
    ensures var r := Renamed(models, oldPath, newPath);
      oldPath !in r && newPath in r && r[newPath] == Lookup(models, oldPath)
      && forall k :: k != oldPath && k != newPath ==> Lookup(r, k) == Lookup(models, k)
  {
  }

  /** Renaming a path to itself removes its model: the assignment is undone by the
      `delete` that follows it. */
  lemma RenameToSelfDrops(models: map<string, Slot>, path: string)
    ensures Renamed(models, path, path) == models - {path}
  {
  }

  /** A renamed key moves to the end of the key order. */
  lemma RenameOrder(keys: seq<string>, oldPath: string, newPath: string)
    requires oldPath != newPath && newPath !in keys
    ensures Without(Put(keys, newPath), oldPath) == Without(keys, oldPath) + [newPath]
  {
    WithoutAppend(keys, newPath, oldPath);
  }

  lemma {:induction false} WithoutAppend(keys: seq<string>, k: string, x: string)
    requires k != x
    ensures Without(keys + [k], x) == Without(keys, x) + [k]
    decreases |keys|
  {
    if |keys| == 0 {
      assert Without([k], x) == [k] + Without([], x);
    } else {
      WithoutAppend(keys[1..], k, x);
      assert (keys + [k])[1..] == keys[1..] + [k];
    }
  }

  lemma {:induction false} DoneFacts(files: seq<string>, serverDeletes: string -> bool)
    ensures forall x :: x in Done(files, serverDeletes) ==> x in files
    ensures (forall x :: x in files ==> serverDeletes(x)) ==> Done(files, serverDeletes) == files
    decreases |files|
  {
    if |files| > 0 {
      DoneFacts(files[1..], serverDeletes);
      if forall x :: x in files ==> serverDeletes(x) {
        assert files[0] in files;
        assert forall x :: x in files[1..] ==> x in files;
        assert files == [files[0]] + files[1..];
      }
    }
  }

  /** Deleting a folder path removes every key that starts with it as text, so "src2/x"
      goes with the folder "src" when every server delete succeeds; deleting a file path
      removes at most that key; no key that does not start with the path is removed. */
  lemma DeleteScope(keys: seq<string>, models: map<string, Slot>, p: string, serverDeletes: string -> bool)
    ensures var after := WithoutAll(keys, Deleted(keys, models, p, serverDeletes));
      (forall k :: k in keys && !StartsWith(k, p) ==> k in after)
      && (IsFolder(models, p) && (forall k :: k in keys && StartsWith(k, p) ==> serverDeletes(k)) ==>
            forall k :: k in after <==> k in keys && !StartsWith(k, p))
      && (!IsFolder(models, p) ==> forall k :: k in after <==> k in keys && (k != p || !serverDeletes(p)))
  {
    var gone := Deleted(keys, models, p, serverDeletes);
    WithoutAllFacts(keys, gone);
    DoneFacts(Prefixed(keys, p), serverDeletes);
    assert StartsWith(p, p);
  }

  /** The two separators split alike: a path is cut at every '/' and every '\'. */
  lemma PathPartsSplit(x: string, c: char, y: string)
    requires c == '/' || c == '\\'
    ensures PathParts(x + [c] + y) == PathParts(x) + PathParts(y)
  {
    MapCharAppend(x + [c], y, '\\', '/');
    MapCharAppend(x, [c], '\\', '/');
    assert MapChar([c], '\\', '/') == ['/'];
    SplitConcat(MapChar(x, '\\', '/'), '/', MapChar(y, '\\', '/'));
  }

  lemma {:induction false} AddAllFacts(folders: seq<string>, names: seq<string>)
    ensures forall x :: x in AddAll(folders, names) <==> x in folders || x in names
    ensures Lists.NoDup(folders) ==> Lists.NoDup(AddAll(folders, names))
    decreases |names|
  {
    if |names| > 0 {
      var init := names[..|names| - 1];
      AddAllFacts(folders, init);
      assert names == init + [names[|names| - 1]];
    }
  }

  /** A folder name of the sidebar: a proper prefix of one of the keys. */
  ghost predicate FolderOf(keys: seq<string>, f: string) {
    exists i, j :: 0 <= i < |keys| && 0 <= j < |PathParts(keys[i])| - 1 && f == Prefixes(PathParts(keys[i]))[j]
  }

  /** The sidebar has one folder node per folder name, never two, and the loop runs to
      the end exactly when no key holds `undefined`. */
  lemma {:induction false} SidebarNoDup(keys: seq<string>, models: map<string, Slot>)
    ensures Lists.NoDup(Sidebar(keys, models).folders)
    ensures Sidebar(keys, models).finished <==> forall k :: k in keys ==> Lookup(models, k).Some?
    decreases |keys|
  {
    if |keys| > 0 {
      var init := keys[..|keys| - 1];
      var k := keys[|keys| - 1];
      SidebarNoDup(init, models);
      var prev := Sidebar(init, models);
      AddAllFacts(prev.folders, Prefixes(PathParts(k)));
      assert keys == init + [k];
      if !prev.finished {
        var k' :| k' in init && Lookup(models, k').None?;
        assert k' in keys;
      } else if Lookup(models, k).None? {
        assert k in keys;
      } else {
        forall x | x in keys ensures Lookup(models, x).Some? {
          if x != k {
            assert x in init;
          }
        }
      }
    }
  }

  /** When the loop finishes, the folder nodes are exactly the proper prefixes of the
      keys. */
  lemma {:induction false} SidebarFolders(keys: seq<string>, models: map<string, Slot>)
    requires Sidebar(keys, models).finished
    ensures forall f :: f in Sidebar(keys, models).folders <==> FolderOf(keys, f)
    decreases |keys|
  {
    if |keys| > 0 {
      var init := keys[..|keys| - 1];
      var k := keys[|keys| - 1];
      var prev := Sidebar(init, models);
      assert prev.finished;
      SidebarFolders(init, models);
      var parts := PathParts(k);
      AddAllFacts(prev.folders, Prefixes(parts));
      var t := Sidebar(keys, models);
      forall f ensures f in t.folders <==> FolderOf(keys, f) {
        FolderStep(keys, f);
      }
    }
  }

  /** A folder name of all the keys is one of the earlier keys' or one of the last key's. */
  lemma FolderStep(keys: seq<string>, f: string)
    requires |keys| > 0
    ensures FolderOf(keys, f) <==> FolderOf(keys[..|keys| - 1], f) || f in Prefixes(PathParts(keys[|keys| - 1]))
  {
    if FolderOf(keys[..|keys| - 1], f) {
      FolderOfInit(keys, f);
    }
    if f in Prefixes(PathParts(keys[|keys| - 1])) {
      FolderOfLast(keys, f);
    }
    if FolderOf(keys, f) {
      FolderOfSplit(keys, f);
    }
  }

  lemma FolderOfInit(keys: seq<string>, f: string)
    requires |keys| > 0 && FolderOf(keys[..|keys| - 1], f)
    ensures FolderOf(keys, f)
  {
    var init := keys[..|keys| - 1];
    var i, j :| 0 <= i < |init| && 0 <= j < |PathParts(init[i])| - 1 && f == Prefixes(PathParts(init[i]))[j];
    assert keys[i] == init[i];
  }

  lemma FolderOfLast(keys: seq<string>, f: string)
    requires |keys| > 0 && f in Prefixes(PathParts(keys[|keys| - 1]))
    ensures FolderOf(keys, f)
  {
    var parts := PathParts(keys[|keys| - 1]);
    var j :| 0 <= j < |Prefixes(parts)| && Prefixes(parts)[j] == f;
    assert 0 <= |keys| - 1 < |keys| && f == Prefixes(PathParts(keys[|keys| - 1]))[j];
  }

  lemma FolderOfSplit(keys: seq<string>, f: string)
    requires |keys| > 0 && FolderOf(keys, f)
    ensures FolderOf(keys[..|keys| - 1], f) || f in Prefixes(PathParts(keys[|keys| - 1]))
  {
    var init := keys[..|keys| - 1];
    var i, j :| 0 <= i < |keys| && 0 <= j < |PathParts(keys[i])| - 1 && f == Prefixes(PathParts(keys[i]))[j];
    if i < |init| {
      assert init[i] == keys[i];
    } else {
      assert Prefixes(PathParts(keys[|keys| - 1]))[j] == f;
    }
  }

  /** When the loop finishes, every key is placed, in key order, under the folder of its
      parent path (at the top level when it has no separator). */
  lemma {:induction false} SidebarFiles(keys: seq<string>, models: map<string, Slot>)
    requires Sidebar(keys, models).finished
    ensures |Sidebar(keys, models).files| == |keys|
    ensures forall i :: 0 <= i < |keys| ==>
      Sidebar(keys, models).files[i] == (keys[i], Parent(PathParts(keys[i])))
    decreases |keys|
  {
    if |keys| > 0 {
      var init := keys[..|keys| - 1];
      assert Sidebar(init, models).finished;
      SidebarFiles(init, models);
      forall i | 0 <= i < |init| ensures init[i] == keys[i] { }
    }
  }
}
