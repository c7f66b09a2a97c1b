/**
 * The directory and file commands: `mkdir`, `ls`, `cd`, `touch`, `rm`,
 * `write`, `cat` and `edit`, as functions from a session to the outcome.
 */
module FileSystem {
  import opened Wrappers
  import opened Text
  import opened ShellState
  import opened Messages

  /** The position of the first occurrence of `x` in `xs`. */
  function FirstIndex<T(==)>(xs: seq<T>, x: T): (i: nat)
    requires x in xs
    ensures i < |xs| && xs[i] == x && x !in xs[..i]
  {
    if xs[0] == x then 0
    else
      var i := FirstIndex(xs[1..], x) + 1;
      assert xs[..i] == [xs[0]] + xs[1..][..i - 1];
      i
  }

  /** `List.Remove(x)`: drop the first occurrence of `x`, if there is one; the rest keeps its order. */
  function RemoveFirst<T(==)>(xs: seq<T>, x: T): (r: seq<T>)
    ensures x !in xs ==> r == xs
    ensures x in xs ==> |r| == |xs| - 1
    ensures x in xs ==> exists i | 0 <= i < |xs| :: xs[i] == x && x !in xs[..i] && r == xs[..i] + xs[i + 1..]
    ensures multiset(r) == multiset(xs) - multiset{x}
  {
    if x !in xs then xs
    else
      var i := FirstIndex(xs, x);
      assert xs == xs[..i] + [xs[i]] + xs[i + 1..];
      xs[..i] + xs[i + 1..]
  }

  /** Removing what was just appended, when it was not there before, restores the list. */
  lemma RemoveFirstAppended<T>(xs: seq<T>, x: T)
    requires x !in xs
    ensures RemoveFirst(xs + [x], x) == xs
  {
    var ys := xs + [x];
    assert ys[|xs|] == x;
    var i :| 0 <= i < |ys| && ys[i] == x && x !in ys[..i] && RemoveFirst(ys, x) == ys[..i] + ys[i + 1..];
    assert forall k | 0 <= k < |xs| :: ys[k] == xs[k] && xs[k] != x;
    assert i == |xs|;
    assert ys[..i] == xs;
  }

  /**
   * `mkdir`: unless the path already exists, list the name in the current
   * directory and create an empty directory under `currentPath/name`. Only the
   * tree and the output change; it throws only when the current directory is
   * missing from the tree.
   */
  function CreateDirectory(s: Session, directory: string): (r: Outcome)
    ensures s.output <= r.state.output
    ensures Valid(s) ==> Valid(r.state)
    ensures r.state.(fileSystem := s.fileSystem, output := s.output) == s
    ensures r.Aborted? <==> ChildPath(s.currentPath, directory) !in s.fileSystem && s.currentPath !in s.fileSystem
    ensures r.Completed? && ChildPath(s.currentPath, directory) !in s.fileSystem ==>
              && r.state.fileSystem.Keys == s.fileSystem.Keys + {ChildPath(s.currentPath, directory)}
              && r.state.fileSystem[ChildPath(s.currentPath, directory)] == []
              && r.state.fileSystem[s.currentPath] == s.fileSystem[s.currentPath] + [directory]
    ensures r.Completed? && ChildPath(s.currentPath, directory) !in s.fileSystem ==>
              r.state.fileSystem == s.fileSystem[s.currentPath := s.fileSystem[s.currentPath] + [directory]][ChildPath(s.currentPath, directory) := []]
    ensures r.Completed? && ChildPath(s.currentPath, directory) !in s.fileSystem ==>
              r.state.output == s.output + [CreatedDirectory(directory, s.currentPath)]
    ensures ChildPath(s.currentPath, directory) in s.fileSystem ==> r == Completed(Say(s, DirectoryExists))
  {
    var fs := s.fileSystem;
    var newPath := ChildPath(s.currentPath, directory);
    if newPath in fs then Completed(Say(s, DirectoryExists))
    else if s.currentPath !in fs then Aborted(s, MissingKey)
    else
      var s' := s.(fileSystem := fs[s.currentPath := fs[s.currentPath] + [directory]][newPath := []]);
      Completed(Say(s', CreatedDirectory(directory, s.currentPath)))
  }

  // ---------------------------------------------------------------------------
  // ls
  // ---------------------------------------------------------------------------

  function Spaces(n: nat): (r: string)
    ensures |r| == n && forall i | 0 <= i < n :: r[i] == ' '
  {
    seq(n, i => ' ')
  }

  /** The number of directories whose path is longer than `path`: it shrinks on every descent. */
  function Longer(fs: map<string, seq<string>>, path: string): nat {
    var longer := set k | k in fs.Keys && |k| > |path|;
    |longer|
  }

  lemma LongerShrinks(fs: map<string, seq<string>>, path: string, child: string)
    requires child in fs && |child| > |path|
    ensures Longer(fs, child) < Longer(fs, path)
  {
    var a := set k | k in fs.Keys && |k| > |child|;
    var b := set k | k in fs.Keys && |k| > |path|;
    assert a <= b - {child};
    SubsetCardinality(a, b - {child});
  }

  lemma {:induction false} SubsetCardinality<T>(a: set<T>, b: set<T>)
    requires a <= b
    ensures |a| <= |b|
    decreases |b|
  {
    if b != {} {
      var x :| x in b;
      SubsetCardinality(a - {x}, b - {x});
    }
  }

  /** The lines `ListDirectory(path, depth)` prints for an existing directory: pre-order, three spaces per level. */
  function Listing(fs: map<string, seq<string>>, path: string, depth: nat): seq<string>
    requires path in fs
    decreases Longer(fs, path), 1
  {
    Entries(fs, path, fs[path], depth)
  }

  /** The lines for `items`, some entries of directory `path`, each followed by its own listing if it is a directory. */
  function Entries(fs: map<string, seq<string>>, path: string, items: seq<string>, depth: nat): seq<string>
    decreases Longer(fs, path), 0, |items|
  {
    if items == [] then []
    else
      var child := ChildPath(path, items[0]);
      var below := if child in fs then LongerShrinks(fs, path, child); Listing(fs, child, depth + 1) else [];
      [Spaces(3 * depth) + items[0]] + below + Entries(fs, path, items[1..], depth)
  }

  /** The entries of a list are printed one after the other: the form the listing loop runs in. */
  lemma {:induction false} EntriesSnoc(fs: map<string, seq<string>>, path: string, items: seq<string>, x: string, depth: nat)
    ensures Entries(fs, path, items + [x], depth) == Entries(fs, path, items, depth) + Entries(fs, path, [x], depth)
    decreases |items|
  {
    if items == [] {
      assert items + [x] == [x];
    } else {
      assert (items + [x])[0] == items[0];
      assert (items + [x])[1..] == items[1..] + [x];
      EntriesSnoc(fs, path, items[1..], x, depth);
    }
  }

  /** One entry: its indented name, then the listing below it when it is a directory. */
  lemma EntriesSingle(fs: map<string, seq<string>>, path: string, x: string, depth: nat)
    ensures Entries(fs, path, [x], depth) ==
            [Spaces(3 * depth) + x] + (if ChildPath(path, x) in fs then Listing(fs, ChildPath(path, x), depth + 1) else [])
  {
    assert [x][1..] == [];
  }

  /** `ls [path]`: the listing, or a notice when the path is not a directory. */
  function ListDirectory(s: Session, path: string): (r: Outcome)
    ensures s.output <= r.state.output
    ensures r.Completed? && r.state.(output := s.output) == s
    ensures path !in s.fileSystem ==> r.state.output == s.output + [InvalidPath]
    ensures path in s.fileSystem ==> r.state.output == s.output + Listing(s.fileSystem, path, 0)
  {
    if path !in s.fileSystem then Completed(Say(s, InvalidPath))
    else Completed(s.(output := s.output + Listing(s.fileSystem, path, 0)))
  }

  predicate IndentedBy(lines: seq<string>, n: nat) {
    forall i | 0 <= i < |lines| :: |lines[i]| >= n && forall j | 0 <= j < n :: lines[i][j] == ' '
  }

  /** Every line of a listing at depth `d` is indented by at least `3 * d` spaces. */
  lemma {:induction false} ListingIndented(fs: map<string, seq<string>>, path: string, depth: nat)
    requires path in fs
    ensures IndentedBy(Listing(fs, path, depth), 3 * depth)
    decreases Longer(fs, path), 1
  {
    EntriesIndented(fs, path, fs[path], depth);
  }

  lemma {:induction false} EntriesIndented(fs: map<string, seq<string>>, path: string, items: seq<string>, depth: nat)
    ensures IndentedBy(Entries(fs, path, items, depth), 3 * depth)
    decreases Longer(fs, path), 0, |items|
  {
    if items != [] {
      var child := ChildPath(path, items[0]);
      var below: seq<string> := [];
      if child in fs {
        LongerShrinks(fs, path, child);
        ListingIndented(fs, child, depth + 1);
        below := Listing(fs, child, depth + 1);
      }
      EntriesIndented(fs, path, items[1..], depth);
      var first := Spaces(3 * depth) + items[0];
      assert Entries(fs, path, items, depth) == [first] + below + Entries(fs, path, items[1..], depth);
    }
  }

  /** Every entry of the directory appears in its listing, indented for its depth. */
  lemma {:induction false} ListingMentions(fs: map<string, seq<string>>, path: string, depth: nat, k: nat)
    requires path in fs && k < |fs[path]|
    ensures Spaces(3 * depth) + fs[path][k] in Listing(fs, path, depth)
  {
    EntriesMention(fs, path, fs[path], depth, k);
  }

  lemma {:induction false} EntriesMention(fs: map<string, seq<string>>, path: string, items: seq<string>, depth: nat, k: nat)
    requires k < |items|
    ensures Spaces(3 * depth) + items[k] in Entries(fs, path, items, depth)
    decreases k
  {
    if k > 0 {
      EntriesMention(fs, path, items[1..], depth, k - 1);
    }
  }

  /** A directory without sub-directories lists exactly its entries, in order. */
  lemma {:induction false} ListingLeaf(fs: map<string, seq<string>>, path: string, depth: nat)
    requires path in fs
    requires forall i | 0 <= i < |fs[path]| :: ChildPath(path, fs[path][i]) !in fs
    ensures Listing(fs, path, depth) == seq(|fs[path]|, i requires 0 <= i < |fs[path]| => Spaces(3 * depth) + fs[path][i])
  {
    EntriesLeaf(fs, path, fs[path], depth);
  }

  lemma {:induction false} EntriesLeaf(fs: map<string, seq<string>>, path: string, items: seq<string>, depth: nat)
    requires forall i | 0 <= i < |items| :: ChildPath(path, items[i]) !in fs
    ensures Entries(fs, path, items, depth) == seq(|items|, i requires 0 <= i < |items| => Spaces(3 * depth) + items[i])
    decreases |items|
  {
    if items != [] {
      EntriesLeaf(fs, path, items[1..], depth);
    }
  }

  // ---------------------------------------------------------------------------
  // cd
  // ---------------------------------------------------------------------------

  /**
   * `cd ..` drops the last `/name` of the current path (refused at the root);
   * `cd name` moves to `currentPath/name` if that directory exists. Only the
   * current path and the output change, and a valid session never throws.
   */
  function ChangeDirectory(s: Session, directory: string): (r: Outcome)
    ensures s.output <= r.state.output
    ensures r.state.(currentPath := s.currentPath, output := s.output) == s
    ensures Valid(s) ==> r.Completed? && Valid(r.state)
    ensures directory != ".." && r.state.currentPath != s.currentPath ==>
              r.state.currentPath == ChildPath(s.currentPath, directory) && r.state.currentPath in s.fileSystem
    ensures directory == ".." && r.Completed? && s.currentPath != RootPath ==>
              |r.state.currentPath| < |s.currentPath| && s.currentPath[..|r.state.currentPath|] == r.state.currentPath
    ensures directory != ".." && ChildPath(s.currentPath, directory) in s.fileSystem ==>
              r == Completed(s.(currentPath := ChildPath(s.currentPath, directory)))
    ensures directory != ".." && ChildPath(s.currentPath, directory) !in s.fileSystem ==> r == Completed(Say(s, NoSuchPath))
    ensures directory == ".." && s.currentPath == RootPath ==> r == Completed(Say(s, AtRoot))
    ensures directory == ".." && s.currentPath != RootPath && Valid(s) ==>
              && 0 <= LastIndexWhere(s.currentPath, IsSlash)
              && r.state.currentPath == s.currentPath[..LastIndexWhere(s.currentPath, IsSlash)]
              && r.state.output == s.output
  {
    var cp := s.currentPath;
    if directory == ".." then
      if cp == RootPath then Completed(Say(s, AtRoot))
      else
        var lastSlash := LastIndexWhere(cp, IsSlash);
        if lastSlash < 0 then Aborted(s, IndexOutOfRange)
        else Completed(s.(currentPath := cp[..lastSlash]))
    else
      var newPath := ChildPath(cp, directory);
      if newPath !in s.fileSystem then Completed(Say(s, NoSuchPath))
      else Completed(s.(currentPath := newPath))
  }

  /** `cd name` followed by `cd ..` comes back to where it started. */
  lemma ChangeDirectoryBack(s: Session, name: string)
    requires Valid(s)
    requires name != ".." && '/' !in name
    requires ChildPath(s.currentPath, name) in s.fileSystem
    ensures ChangeDirectory(ChangeDirectory(s, name).state, "..").state.currentPath == s.currentPath
  {
    var p := ChildPath(s.currentPath, name);
    assert forall k | |s.currentPath| < k < |p| :: p[k] == name[k - |s.currentPath| - 1];
    LastIndexAt(p, IsSlash, |s.currentPath|);
  }

  lemma {:induction false} LastIndexAt(s: string, p: char -> bool, j: nat)
    requires j < |s| && p(s[j])
    requires forall k | j < k < |s| :: !p(s[k])
    ensures LastIndexWhere(s, p) == j
    decreases |s|
  {
    if j < |s| - 1 {
      assert forall k | j < k < |s| - 1 :: s[..|s| - 1][k] == s[k];
      LastIndexAt(s[..|s| - 1], p, j);
    }
  }

  // ---------------------------------------------------------------------------
  // touch, rm
  // ---------------------------------------------------------------------------

  /**
   * `touch name`: list the name in the current directory and add an empty
   * file. File names are global, so a name already used for a file in another
   * directory makes `files.Add` throw after the name was listed.
   */
  function CreateFile(s: Session, filename: string): (r: Outcome)
    ensures s.output <= r.state.output
    ensures Valid(s) ==> Valid(r.state)
    ensures r.state.(fileSystem := s.fileSystem, files := s.files, output := s.output) == s
    ensures r.Aborted? <==> s.currentPath !in s.fileSystem || (filename !in s.fileSystem[s.currentPath] && filename in s.files)
    ensures r.Completed? && s.currentPath in s.fileSystem && filename !in s.fileSystem[s.currentPath] ==>
              && r.state.files == s.files[filename := ""]
              && r.state.fileSystem == s.fileSystem[s.currentPath := s.fileSystem[s.currentPath] + [filename]]
              && r.state.output == s.output + [CreatedFile(filename)]
    ensures r.Aborted? && s.currentPath in s.fileSystem ==>
              r == Aborted(s.(fileSystem := s.fileSystem[s.currentPath := s.fileSystem[s.currentPath] + [filename]]), DuplicateKey)
    ensures s.currentPath in s.fileSystem && filename in s.fileSystem[s.currentPath] ==>
              r == Completed(Say(s, FileExists))
  {
    var fs := s.fileSystem;
    var cp := s.currentPath;
    if cp !in fs then Aborted(s, MissingKey)
    else if filename in fs[cp] then Completed(Say(s, FileExists))
    else
      var s' := s.(fileSystem := fs[cp := fs[cp] + [filename]]);
      if filename in s.files then Aborted(s', DuplicateKey)
      else Completed(Say(s'.(files := s.files[filename := ""]), CreatedFile(filename)))
  }

  /**
   * `rm name`: a name that is not a directory is unlisted and its file
   * dropped; an empty directory is unlisted and deleted; a directory with
   * entries is kept. Variables and the current path never change.
   */
  function RemoveFile(s: Session, name: string): (r: Outcome)
    ensures s.output <= r.state.output
    ensures Valid(s) ==> Valid(r.state)
    ensures r.state.(fileSystem := s.fileSystem, files := s.files, output := s.output) == s
    ensures r.Aborted? <==> s.currentPath !in s.fileSystem
    ensures r.state.files.Keys <= s.files.Keys && r.state.fileSystem.Keys <= s.fileSystem.Keys
    ensures s.currentPath in s.fileSystem && name !in s.fileSystem[s.currentPath] ==> r == Completed(Say(s, NoSuchEntry))
    ensures r.Completed? && name in s.fileSystem[s.currentPath] ==>
              var child := ChildPath(s.currentPath, name);
              var listed := RemoveFirst(s.fileSystem[s.currentPath], name);
              if child !in s.fileSystem then
                && r.state.files == s.files - {name}
                && r.state.fileSystem == s.fileSystem[s.currentPath := listed]
                && r.state.output == s.output + [FileRemoved]
              else if s.fileSystem[child] == [] then
                && r.state.fileSystem.Keys == s.fileSystem.Keys - {child}
                && r.state.fileSystem == (s.fileSystem - {child})[s.currentPath := listed]
                && r.state.files == s.files
                && r.state.output == s.output + [DirectoryRemoved]
              else r == Completed(Say(s, DirectoryNotEmpty))
    ensures r.Completed? ==> s.currentPath in r.state.fileSystem
    ensures r.Completed? && name in s.fileSystem[s.currentPath] && r.state.fileSystem != s.fileSystem ==>
              multiset(r.state.fileSystem[s.currentPath]) == multiset(s.fileSystem[s.currentPath]) - multiset{name}
  {
    var fs := s.fileSystem;
    var cp := s.currentPath;
    if cp !in fs then Aborted(s, MissingKey)
    else if name !in fs[cp] then Completed(Say(s, NoSuchEntry))
    else
      var newPath := ChildPath(cp, name);
      if newPath !in fs then
        Completed(Say(s.(fileSystem := fs[cp := RemoveFirst(fs[cp], name)], files := s.files - {name}), FileRemoved))
      else if |fs[newPath]| != 0 then Completed(Say(s, DirectoryNotEmpty))
      else
        var fs' := fs - {newPath};
        Completed(Say(s.(fileSystem := fs'[cp := RemoveFirst(fs[cp], name)]), DirectoryRemoved))
  }

  /** `mkdir name` then `rm name` leaves the session as it was, apart from the two messages. */
  lemma CreateThenRemoveDirectory(s: Session, name: string)
    requires s.currentPath in s.fileSystem
    requires ChildPath(s.currentPath, name) !in s.fileSystem && name !in s.fileSystem[s.currentPath]
    ensures RemoveFile(CreateDirectory(s, name).state, name).state.(output := s.output) == s
  {
    var cp := s.currentPath;
    var fs := s.fileSystem;
    var child := ChildPath(cp, name);
    var fs1 := fs[cp := fs[cp] + [name]][child := []];
    var t := Say(s.(fileSystem := fs1), CreatedDirectory(name, cp));
    assert CreateDirectory(s, name).state == t;
    assert child != cp && child in fs1 && fs1[child] == [] && name in fs1[cp];
    RemoveFirstAppended(fs[cp], name);
    var fs2 := (fs1 - {child})[cp := RemoveFirst(fs1[cp], name)];
    assert fs2 == fs;
  }

  /** `touch name` then `rm name` leaves the session as it was, apart from the two messages. */
  lemma CreateThenRemoveFile(s: Session, name: string)
    requires s.currentPath in s.fileSystem
    requires name !in s.fileSystem[s.currentPath] && name !in s.files
    requires ChildPath(s.currentPath, name) !in s.fileSystem
    ensures RemoveFile(CreateFile(s, name).state, name).state.(output := s.output) == s
  {
    var cp := s.currentPath;
    var fs := s.fileSystem;
    var fs1 := fs[cp := fs[cp] + [name]];
    var files1 := s.files[name := ""];
    var t := Say(s.(fileSystem := fs1, files := files1), CreatedFile(name));
    assert CreateFile(s, name).state == t;
    assert ChildPath(cp, name) !in fs1 && name in fs1[cp];
    RemoveFirstAppended(fs[cp], name);
    RemoveListedFile(t, name);
    var fs2 := fs1[cp := RemoveFirst(fs1[cp], name)];
    assert fs2 == fs;
    assert files1 - {name} == s.files;
  }

  /** `rm` of a listed name that is not a directory: only the list, the file table and the output change. */
  lemma RemoveListedFile(t: Session, name: string)
    requires t.currentPath in t.fileSystem && name in t.fileSystem[t.currentPath]
    requires ChildPath(t.currentPath, name) !in t.fileSystem
    ensures RemoveFile(t, name).state.(output := t.output) ==
            t.(fileSystem := t.fileSystem[t.currentPath := RemoveFirst(t.fileSystem[t.currentPath], name)], files := t.files - {name})
  {
  }

  // ---------------------------------------------------------------------------
  // write, cat, edit
  // ---------------------------------------------------------------------------

  /** A file the commands can reach: listed in the current directory and present in the file table. */
  predicate Reachable(s: Session, filename: string)
    requires s.currentPath in s.fileSystem
  {
    filename in s.fileSystem[s.currentPath] && filename in s.files
  }

  /** `write name text`: append `text` and a line break to a reachable file. */
  function WriteToFile(s: Session, filename: string, text: string): (r: Outcome)
    ensures s.output <= r.state.output
    ensures Valid(s) ==> Valid(r.state)
    ensures r.state.(files := s.files, output := s.output) == s
    ensures r.Aborted? <==> s.currentPath !in s.fileSystem
    ensures r.Completed? && Reachable(s, filename) ==>
              && r.state.files == s.files[filename := s.files[filename] + text + "\n"]
              && r.state.output == s.output + [TextWritten(filename)]
    ensures r.Completed? && !Reachable(s, filename) ==> r == Completed(Say(s, FileNotFound))
  {
    var cp := s.currentPath;
    if cp !in s.fileSystem then Aborted(s, MissingKey)
    else if !Reachable(s, filename) then Completed(Say(s, FileNotFound))
    else
      var s' := s.(files := s.files[filename := s.files[filename] + text + "\n"]);
      Completed(Say(s', TextWritten(filename)))
  }

  /** `cat name`: print the text of a reachable file. */
  function ReadFile(s: Session, filename: string): (r: Outcome)
    ensures s.output <= r.state.output
    ensures r.state.(output := s.output) == s
    ensures r.Aborted? <==> s.currentPath !in s.fileSystem
    ensures r.Completed? ==> |r.state.output| == |s.output| + 1
    ensures r.Completed? && Reachable(s, filename) ==> r.state.output == s.output + [s.files[filename]]
    ensures r.Completed? && !Reachable(s, filename) ==> r == Completed(Say(s, FileNotFound))
  {
    var cp := s.currentPath;
    if cp !in s.fileSystem then Aborted(s, MissingKey)
    else if !Reachable(s, filename) then Completed(Say(s, FileNotFound))
    else Completed(Say(s, s.files[filename]))
  }

  /** Writing to a file and reading it back prints the old text followed by the new line. */
  lemma WriteThenRead(s: Session, filename: string, text: string)
    requires s.currentPath in s.fileSystem && Reachable(s, filename)
    ensures var t := WriteToFile(s, filename, text).state;
            ReadFile(t, filename).state.output == t.output + [s.files[filename] + text + "\n"]
  {
  }

  /**
   * `edit name`: the interactive editor turns the old text into the saved text;
   * it is a parameter here, a function of the file name and its old text.
   */
  function EditFile(s: Session, filename: string, editor: (string, string) -> string): (r: Outcome)
    ensures s.output <= r.state.output
    ensures Valid(s) ==> Valid(r.state)
    ensures r.Completed? && r.state.(files := s.files, output := s.output) == s
    ensures filename in s.files ==> r.state.files == s.files[filename := editor(filename, s.files[filename])]
    ensures filename in s.files ==> r.state.output == s.output + [FileSaved]
    ensures filename !in s.files ==> r.state == Say(s, NoSuchFile)
  {
    if filename !in s.files then Completed(Say(s, NoSuchFile))
    else Completed(Say(s.(files := s.files[filename := editor(filename, s.files[filename])]), FileSaved))
  }
}
