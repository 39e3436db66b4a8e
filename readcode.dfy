/**
 * `src/filesystem/read_code.py`: the code of a project as a list of (file name, stripped
 * content) records, gathered by a top-down walk of the project directory that prunes the
 * excluded directories and skips the excluded files, then rendered as markdown.
 * The directory tree is given as a value: what the walk would find on disk.
 */
module ReadCode {
  import opened Wrappers
  import opened Text
  import opened Fences
  import FileBlocks

  /** A file of the tree; `content` is `None` when opening or reading it fails. */
  datatype Entry = Entry(name: string, content: Option<string>)

  /** A directory: its files and its sub-directories, in the order the walk lists them. */
  datatype Dir = Dir(name: string, files: seq<Entry>, dirs: seq<Dir>)

  /** One record of `files_list`: the path relative to the projects directory, and the code. */
  datatype Code = Code(filename: string, code: string)

  /** The three exclusion lists of `read_directory`. */
  datatype Exclusions = Exclusions(dirs: seq<string>, files: seq<string>, extensions: seq<string>)

  const Excluded := Exclusions(
    [".git", "systemdesign", ".idea", ".venv", "node_modules", "build", "coverage", "venv"],
    [".placeholder", "newFile.js", "favicon.ico", "README.md", ".gitignore", "LICENSE"],
    [".png", ".jpg", ".jpeg", ".gif", ".bmp", ".tiff", ".ico", ".json", ".svg", ".txt"])

  /** `dirs[:] = [d for d in dirs if d not in excluded_dirs]` drops these directories. */
  predicate Pruned(x: Exclusions, name: string) {
    Listed(name, x.dirs)
  }

  /** `any(name.endswith(ext) for ext in exts)`. */
  predicate EndsWithAny(name: string, exts: seq<string>)
    decreases |exts|
  {
    |exts| > 0 && (EndsWith(name, exts[0]) || EndsWithAny(name, exts[1..]))
  }

  /** A file is skipped by its exact name, or by the extension of its lower-cased name. */
  predicate SkippedFile(x: Exclusions, name: string) {
    Listed(name, x.files) || EndsWithAny(Lower(name), x.extensions)
  }

  /** `name in names`. */
  predicate Listed(name: string, names: seq<string>)
    decreases |names|
  {
    |names| > 0 && (name == names[0] || Listed(name, names[1..]))
  }

  /** `os.path.join(root, name)` with the POSIX separator. */
  function JoinPath(root: string, name: string): string {
    root + "/" + name
  }

  /** The records the files of one directory contribute, in order. */
  function FilesOf(x: Exclusions, root: string, files: seq<Entry>): (r: seq<Code>)
    decreases |files|
  {
    if |files| == 0 then [] else FilesOf(x, root, files[..|files| - 1]) + Record(x, root, files[|files| - 1])
  }

  /** The record one file gives: none when it is skipped or cannot be read. */
  function Record(x: Exclusions, root: string, e: Entry): (r: seq<Code>)
    ensures |r| <= 1
  {
    if SkippedFile(x, e.name) || e.content.None? then [] else [Code(JoinPath(root, e.name), Strip(e.content.value))]
  }

  lemma RecordKept(x: Exclusions, root: string, e: Entry, c: Code)
    ensures c in Record(x, root, e) <==> Kept(x, root, e, c)
  {
  }

  /** The records of the walk from `d`, found at path `root`: its own files, then the walk
      of each sub-directory that is not pruned. */
  function Read(x: Exclusions, root: string, d: Dir): seq<Code>
    decreases d, |d.dirs| + 1
  {
    FilesOf(x, root, d.files) + ReadSub(x, root, d, 0)
  }

  /** The walks of the kept sub-directories of `d` from the `i`-th on. */
  function ReadSub(x: Exclusions, root: string, d: Dir, i: nat): seq<Code>
    requires i <= |d.dirs|
    decreases d, |d.dirs| - i
  {
    if i == |d.dirs| then []
    else if Pruned(x, d.dirs[i].name) then ReadSub(x, root, d, i + 1)
    else Read(x, JoinPath(root, d.dirs[i].name), d.dirs[i]) + ReadSub(x, root, d, i + 1)
  }

  // ---------------------------------------------------------------------------------
  // The walk as the source runs it: a stack of directories still to visit

  /** The kept sub-directories of `d` from the `i`-th on, with their paths. */
  function Children(x: Exclusions, root: string, d: Dir, i: nat): (r: seq<(string, Dir)>)
    requires i <= |d.dirs|
    ensures forall k :: 0 <= k < |r| ==> r[k].1 in d.dirs[i..] && !Pruned(x, r[k].1.name)
    decreases |d.dirs| - i
  {
    if i == |d.dirs| then []
    else if Pruned(x, d.dirs[i].name) then Children(x, root, d, i + 1)
    else [(JoinPath(root, d.dirs[i].name), d.dirs[i])] + Children(x, root, d, i + 1)
  }

  /** The records of the walks of every pending directory, in order. */
  function ReadAll(x: Exclusions, pending: seq<(string, Dir)>): seq<Code>
    decreases |pending|
  {
    if |pending| == 0 then [] else Read(x, pending[0].0, pending[0].1) + ReadAll(x, pending[1..])
  }

  /** The number of directories in a tree, to bound the walk. */
  function Size(d: Dir): nat
    decreases d, |d.dirs| + 1
  {
    1 + SizeSub(d, 0)
  }

  function SizeSub(d: Dir, i: nat): nat
    requires i <= |d.dirs|
    decreases d, |d.dirs| - i
  {
    if i == |d.dirs| then 0 else Size(d.dirs[i]) + SizeSub(d, i + 1)
  }

  function SizeAll(pending: seq<(string, Dir)>): nat
    decreases |pending|
  {
    if |pending| == 0 then 0 else Size(pending[0].1) + SizeAll(pending[1..])
  }

  lemma {:induction false} SizeAllAppend(a: seq<(string, Dir)>, b: seq<(string, Dir)>)
    ensures SizeAll(a + b) == SizeAll(a) + SizeAll(b)
    decreases |a|
  {
    if |a| > 0 {
      assert (a + b)[1..] == a[1..] + b;
      SizeAllAppend(a[1..], b);
    } else {
      assert a + b == b;
    }
  }

  lemma {:induction false} ReadAllAppend(x: Exclusions, a: seq<(string, Dir)>, b: seq<(string, Dir)>)
    ensures ReadAll(x, a + b) == ReadAll(x, a) + ReadAll(x, b)
    decreases |a|
  {
    if |a| > 0 {
      assert (a + b)[1..] == a[1..] + b;
      ReadAllAppend(x, a[1..], b);
    } else {
      assert a + b == b;
    }
  }

  /** The pruned children weigh no more than all the sub-directories. */
  lemma {:induction false} ChildrenSize(x: Exclusions, root: string, d: Dir, i: nat)
    requires i <= |d.dirs|
    ensures SizeAll(Children(x, root, d, i)) <= SizeSub(d, i)
    decreases |d.dirs| - i
  {
    if i < |d.dirs| {
      ChildrenSize(x, root, d, i + 1);
      if !Pruned(x, d.dirs[i].name) {
        var c := Children(x, root, d, i);
        assert c[1..] == Children(x, root, d, i + 1);
      }
    }
  }

  /** Visiting the children in order gives the walks of the sub-directories. */
  lemma {:induction false} ChildrenRead(x: Exclusions, root: string, d: Dir, i: nat)
    requires i <= |d.dirs|
    ensures ReadAll(x, Children(x, root, d, i)) == ReadSub(x, root, d, i)
    decreases |d.dirs| - i
  {
    if i < |d.dirs| {
      ChildrenRead(x, root, d, i + 1);
      if !Pruned(x, d.dirs[i].name) {
        var c := Children(x, root, d, i);
        assert c[1..] == Children(x, root, d, i + 1);
      }
    }
  }

  /** Replacing the first pending directory by its kept children, after taking its files,
      keeps the records to come. */
  lemma ExpandRead(x: Exclusions, root: string, d: Dir, rest: seq<(string, Dir)>)
    ensures ReadAll(x, [(root, d)] + rest) == FilesOf(x, root, d.files) + ReadAll(x, Children(x, root, d, 0) + rest)
  {
    var pending := [(root, d)] + rest;
    assert pending[0] == (root, d) && pending[1..] == rest;
    ReadAllAppend(x, Children(x, root, d, 0), rest);
    ChildrenRead(x, root, d, 0);
    calc {
      ReadAll(x, pending);
      Read(x, root, d) + ReadAll(x, rest);
      (FilesOf(x, root, d.files) + ReadSub(x, root, d, 0)) + ReadAll(x, rest);
      FilesOf(x, root, d.files) + (ReadSub(x, root, d, 0) + ReadAll(x, rest));
      FilesOf(x, root, d.files) + ReadAll(x, Children(x, root, d, 0) + rest);
    }
  }

  /** ... and shrinks what is left to walk. */
  lemma ExpandSize(x: Exclusions, root: string, d: Dir, rest: seq<(string, Dir)>)
    ensures SizeAll(Children(x, root, d, 0) + rest) < SizeAll([(root, d)] + rest)
  {
    var pending := [(root, d)] + rest;
    assert pending[0] == (root, d) && pending[1..] == rest;
    SizeAllAppend(Children(x, root, d, 0), rest);
    ChildrenSize(x, root, d, 0);
  }

  /** The inner loop of `read_directory`: the files of one directory. */
  method ReadFiles(x: Exclusions, dir: string, files: seq<Entry>) returns (records: seq<Code>)
    ensures records == FilesOf(x, dir, files)
  {
    records := [];
    for j := 0 to |files|
      invariant records == FilesOf(x, dir, files[..j])
    {
      assert files[..j + 1][..j] == files[..j];
      var file := files[j];
      assert FilesOf(x, dir, files[..j + 1]) == records + Record(x, dir, file);
      if !(Listed(file.name, x.files) || EndsWithAny(Lower(file.name), x.extensions)) && file.content.Some? {
        records := records + [Code(JoinPath(dir, file.name), Strip(file.content.value))];
      }
    }
    assert files[..|files|] == files;
  }

  /** `read_directory` with the exclusions `x` on the tree of the project directory `root`
      (its path relative to the projects directory). */
  method ReadDirectory(x: Exclusions, root: string, tree: Dir) returns (filesList: seq<Code>)
    ensures filesList == Read(x, root, tree)
  {
    filesList := [];
    var pending := [(root, tree)];
    assert ReadAll(x, pending[1..]) == [];
    while |pending| > 0
      invariant filesList + ReadAll(x, pending) == Read(x, root, tree)
      decreases SizeAll(pending)
    {
      var (dir, d) := pending[0];
      ghost var rest := pending[1..];
      assert pending == [(dir, d)] + rest;
      ExpandRead(x, dir, d, rest);
      ExpandSize(x, dir, d, rest);
      var records := ReadFiles(x, dir, d.files);
      filesList := filesList + records;
      pending := Children(x, dir, d, 0) + pending[1..];
    }
  }

  /** `read_directory` of `ReadCode(projectName)`: the walk starts at the project's directory. */
  method ReadProject(projectName: string, tree: Dir) returns (filesList: seq<Code>)
    ensures filesList == Read(Excluded, FileBlocks.Slug(projectName), tree)
  {
    filesList := ReadDirectory(Excluded, FileBlocks.Slug(projectName), tree);
  }

  // ---------------------------------------------------------------------------------
  // What the walk keeps

  /** A file is recorded, with its path and stripped code, exactly when its name is not
      excluded and it can be read. */
  lemma FilesOfMember(x: Exclusions, root: string, files: seq<Entry>, c: Code)
    ensures c in FilesOf(x, root, files) <==> exists j :: 0 <= j < |files| && Kept(x, root, files[j], c)
  {
    if c in FilesOf(x, root, files) {
      var j := RecordedFrom(x, root, files, c);
    }
    if exists j :: 0 <= j < |files| && Kept(x, root, files[j], c) {
      var j :| 0 <= j < |files| && Kept(x, root, files[j], c);
      KeptRecorded(x, root, files, c, j);
    }
  }

  /** Each record comes from a kept file ... */
  lemma {:induction false} RecordedFrom(x: Exclusions, root: string, files: seq<Entry>, c: Code) returns (j: nat)
    requires c in FilesOf(x, root, files)
    ensures j < |files| && Kept(x, root, files[j], c)
    decreases |files|
  {
    var n := |files| - 1;
    RecordKept(x, root, files[n], c);
    if c in Record(x, root, files[n]) {
      j := n;
    } else {
      j := RecordedFrom(x, root, files[..n], c);
      assert files[..n][j] == files[j];
    }
  }

  /** ... and each kept file gives its record. */
  lemma {:induction false} KeptRecorded(x: Exclusions, root: string, files: seq<Entry>, c: Code, j: nat)
    requires j < |files| && Kept(x, root, files[j], c)
    ensures c in FilesOf(x, root, files)
    decreases |files|
  {
    var n := |files| - 1;
    if j == n {
      RecordKept(x, root, files[n], c);
      FilesOfSnoc(x, root, files, c);
    } else {
      KeptRecorded(x, root, files[..n], c, j);
      FilesOfSnoc(x, root, files, c);
    }
  }

  lemma FilesOfSnoc(x: Exclusions, root: string, files: seq<Entry>, c: Code)
    requires |files| > 0
    ensures c in FilesOf(x, root, files) <==>
      c in FilesOf(x, root, files[..|files| - 1]) || c in Record(x, root, files[|files| - 1])
  {
  }

  /** `Listed` is list membership. */
  lemma {:induction false} ListedIn(name: string, names: seq<string>)
    ensures Listed(name, names) <==> name in names
    decreases |names|
  {
    if |names| > 0 {
      ListedIn(name, names[1..]);
      assert names == [names[0]] + names[1..];
    }
  }

  lemma {:induction false} EndsWithAnyExists(name: string, exts: seq<string>)
    ensures EndsWithAny(name, exts) <==> exists k :: 0 <= k < |exts| && EndsWith(name, exts[k])
    decreases |exts|
  {
    if |exts| > 0 {
      EndsWithAnyExists(name, exts[1..]);
      assert forall k :: 1 <= k < |exts| ==> exts[1..][k - 1] == exts[k];
    }
  }

  /** A file is skipped exactly when its name is one of the excluded names or its lower-cased
      name ends with one of the excluded extensions; a directory is pruned exactly when its
      name is one of the excluded directories. */
  lemma ExclusionsMean(x: Exclusions, name: string)
    ensures SkippedFile(x, name) <==>
      name in x.files || exists k :: 0 <= k < |x.extensions| && EndsWith(Lower(name), x.extensions[k])
    ensures Pruned(x, name) <==> name in x.dirs
  {
    ListedIn(name, x.files);
    ListedIn(name, x.dirs);
    EndsWithAnyExists(Lower(name), x.extensions);
  }

  /** The record `c` is the one the readable, not excluded file `e` gives in `root`. */
  predicate Kept(x: Exclusions, root: string, e: Entry, c: Code) {
    !SkippedFile(x, e.name) && e.content.Some? && c == Code(JoinPath(root, e.name), Strip(e.content.value))
  }

  /** A pruned directory contributes nothing, whatever it holds: the walk is the same with
      the directory removed. */
  lemma PrunedDirIgnored(x: Exclusions, root: string, d: Dir, i: nat)
    requires i < |d.dirs| && Pruned(x, d.dirs[i].name)
    ensures Read(x, root, d) == Read(x, root, d.(dirs := d.dirs[..i] + d.dirs[i + 1..]))
  {
    var e := d.(dirs := d.dirs[..i] + d.dirs[i + 1..]);
    SubBefore(x, root, d, e, i, i);
    SubAfter(x, root, d, e, i);
  }

  lemma {:induction false} SubAfter(x: Exclusions, root: string, d: Dir, e: Dir, i: nat)
    requires i < |d.dirs| && e.dirs == d.dirs[..i] + d.dirs[i + 1..] && Pruned(x, d.dirs[i].name)
    ensures ReadSub(x, root, d, i) == ReadSub(x, root, e, i)
  {
    ShiftedSub(x, root, d, e, i, i + 1);
  }

  /** Past the removed directory, the two walks read the same directories one index apart. */
  lemma {:induction false} ShiftedSub(x: Exclusions, root: string, d: Dir, e: Dir, i: nat, k: nat)
    requires i < k <= |d.dirs| && e.dirs == d.dirs[..i] + d.dirs[i + 1..]
    ensures ReadSub(x, root, d, k) == ReadSub(x, root, e, k - 1)
    decreases |d.dirs| - k
  {
    if k < |d.dirs| {
      assert e.dirs[k - 1] == d.dirs[k];
      ShiftedSub(x, root, d, e, i, k + 1);
    }
  }

  /** Before the removed directory, the two walks read the same directories. */
  lemma {:induction false} SubBefore(x: Exclusions, root: string, d: Dir, e: Dir, i: nat, k: nat)
    requires i < |d.dirs| && e.dirs == d.dirs[..i] + d.dirs[i + 1..] && Pruned(x, d.dirs[i].name)
    requires k <= i
    ensures ReadSub(x, root, d, i - k) == ReadSub(x, root, e, i - k)
    decreases k
  {
    if k == 0 {
      SubAfter(x, root, d, e, i);
    } else {
      SubBefore(x, root, d, e, i, k - 1);
      assert e.dirs[i - k] == d.dirs[i - k];
    }
  }

  // ---------------------------------------------------------------------------------
  // code_set_to_markdown

  /** One record as a markdown block: the file name, then the code between "```" fences. */
  function Block(c: Code): string {
    c.filename + ":\n" + Backticks + "\n" + c.code + "\n" + Backticks
  }

  function Blocks(codes: seq<Code>): (r: seq<string>)
    ensures |r| == |codes| && forall i :: 0 <= i < |r| ==> r[i] == Block(codes[i])
  {
    seq(|codes|, i requires 0 <= i < |codes| => Block(codes[i]))
  }

  /** `code_set_to_markdown` on the records read. */
  function CodeSetToMarkdown(codes: seq<Code>): string {
    Strip(Join(Blocks(codes), "\n"))
  }

  /** The final strip only ever trims white space at the head of the first file name: when
      that name does not start with white space, the markdown is the blocks joined by
      newlines. */
  lemma MarkdownBlocks(codes: seq<Code>)
    requires |codes| > 0 ==> |codes[0].filename| == 0 || !IsSpace(codes[0].filename[0])
    ensures CodeSetToMarkdown(codes) == Join(Blocks(codes), "\n")
  {
    var bs := Blocks(codes);
    if |codes| > 0 {
      var b0 := Block(codes[0]);
      assert b0[0] == (if |codes[0].filename| == 0 then ':' else codes[0].filename[0]);
      JoinFirst(bs, "\n");
      var bl := Block(codes[|codes| - 1]);
      assert bl[|bl| - 1] == '`';
      JoinLast(bs, "\n");
    }
    StripTrimmed(Join(bs, "\n"));
  }
}
