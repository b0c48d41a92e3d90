/**
 Walking a path in libraries/SD/SD.cpp: `getNextPathComponent` and `walkPath`, which goes down the directories with two
 handles that it swaps, and the callbacks of `exists` and `mkdir`.

 The card is a map from paths to directories and files. Names are compared as they are written.
 */
module SdWalk {

  type Name = string
  type Path = seq<Name>

  datatype Node = Directory | File

  type Tree = map<Path, Node>

  const MAX_COMPONENT_LEN: nat := 12

  // ----- The components of a path -----

  /** The character at an offset of the path, which ends with a zero. */
  function At(path: string, offset: nat): char {
    if offset < |path| then path[offset] else '\0'
  }

  ghost predicate IsCString(path: string) { forall i :: 0 <= i < |path| ==> path[i] != '\0' }

  /** Where the component that starts at `offset` ends, `taken` of its characters having been taken. */
  function ComponentEnd(path: string, offset: nat, taken: nat): (end: nat)
    requires offset <= |path| && taken <= MAX_COMPONENT_LEN
    ensures offset <= end <= |path| && end <= offset + MAX_COMPONENT_LEN - taken
    decreases |path| - offset
  {
    if taken < MAX_COMPONENT_LEN && offset < |path| && path[offset] != '/'
    then ComponentEnd(path, offset + 1, taken + 1)
    else offset
  }

  function SkipSlash(path: string, offset: nat): (next: nat)
    requires offset <= |path|
    ensures offset <= next <= |path|
  {
    if offset < |path| && path[offset] == '/' then offset + 1 else offset
  }

  /** The next component, and the offset at which the one after it is looked for. */
  function NextComponent(path: string, offset: nat): (r: (Name, nat))
    requires offset <= |path|
    ensures offset <= r.1 <= |path| && (offset < |path| ==> offset < r.1)
    ensures |r.0| <= MAX_COMPONENT_LEN
  {
    var start := SkipSlash(path, offset);
    var end := ComponentEnd(path, start, 0);
    (path[start..end], SkipSlash(path, end))
  }

  /** All components from `offset` on; there is always one. */
  function Components(path: string, offset: nat): (names: seq<Name>)
    requires offset <= |path|
    ensures names != [] && forall i :: 0 <= i < |names| ==> |names[i]| <= MAX_COMPONENT_LEN
    decreases |path| - offset
  {
    var (name, next) := NextComponent(path, offset);
    if next == |path| then [name] else [name] + Components(path, next)
  }

  /** getNextPathComponent. */
  method GetNextPathComponent(path: string, p_offset: nat) returns (more: bool, buffer: Name, next: nat)
    requires IsCString(path) && p_offset <= |path|
    ensures (buffer, next) == NextComponent(path, p_offset) && more == (next < |path|)
  {
    var offset := p_offset;
    buffer := [];
    if At(path, offset) == '/' {
      offset := offset + 1;
    }
    ghost var start := offset;
    while |buffer| < MAX_COMPONENT_LEN && At(path, offset) != '/' && At(path, offset) != '\0'
      invariant start <= offset <= |path| && buffer == path[start..offset] && |buffer| <= MAX_COMPONENT_LEN
      invariant ComponentEnd(path, start, 0) == ComponentEnd(path, offset, |buffer|)
      decreases |path| - offset
    {
      buffer := buffer + [At(path, offset)];
      offset := offset + 1;
    }
    if At(path, offset) == '/' {
      offset := offset + 1;
    }
    next := offset;
    more := At(path, offset) != '\0';
  }

  // ----- What a walk does -----

  predicate Exists(tree: Tree, parent: Path, name: Name) {
    parent in tree && tree[parent] == Directory && name != "" && parent + [name] in tree
  }

  /** SdFile::makeDir. */
  function MakeDir(tree: Tree, parent: Path, name: Name): (bool, Tree) {
    if parent in tree && tree[parent] == Directory && name != "" && parent + [name] !in tree
    then (true, tree[parent + [name] := Directory])
    else (false, tree)
  }

  /** The callbacks of exists and mkdir, and any other: whatever it answers, and does to the card. */
  datatype Callback = PathExists | MakeDirPath | AnyOther(outcome: (Tree, Path, Name) -> (bool, Tree))

  /** One call of a callback. */
  function Called(callback: Callback, tree: Tree, parent: Path, name: Name): (bool, Tree) {
    match callback
    case PathExists => (Exists(tree, parent, name), tree)
    case MakeDirPath => if Exists(tree, parent, name) then (true, tree) else MakeDir(tree, parent, name)
    case AnyOther(outcome) => outcome(tree, parent, name)
  }

  /** A walk over these names from `parent` on: its result, and the card after it. */
  function Walked(callback: Callback, tree: Tree, parent: Path, names: seq<Name>): (bool, Tree)
    requires names != []
    decreases |names|
  {
    var (go, tree1) := Called(callback, tree, parent, names[0]);
    if !go then (false, tree1)
    else if |names| == 1 then (true, tree1)
    else if Exists(tree1, parent, names[0]) then Walked(callback, tree1, parent + [names[0]], names[1..])
    else (false, tree1)
  }

  // ----- Handles -----

  class Volume {
    var tree: Tree
  }

  class SdFile {
    var isOpen: bool
    var path: Path

    constructor ()
      ensures !isOpen
    {
      isOpen, path := false, [];
    }

    /** open for reading: refused if the handle is open already. */
    method Open(vol: Volume, dir: SdFile, name: Name) returns (ok: bool)
      requires dir.isOpen && dir != this
      modifies this
      ensures ok == (!old(isOpen) && Exists(vol.tree, dir.path, name))
      ensures if ok then isOpen && path == dir.path + [name] else isOpen == old(isOpen) && path == old(path)
    {
      ok := !isOpen && Exists(vol.tree, dir.path, name);
      if ok {
        isOpen, path := true, dir.path + [name];
      }
    }

    /** close; this walk never closes a handle that is not open. */
    method Close()
      requires isOpen
      modifies this
      ensures !isOpen
    {
      isOpen := false;
    }
  }

  /** callback_pathExists: it opens a handle of its own, and closes it. */
  method CallPathExists(vol: Volume, parentDir: SdFile, name: Name) returns (found: bool)
    requires parentDir.isOpen
    ensures found == Exists(vol.tree, parentDir.path, name)
  {
    var child := new SdFile();
    found := child.Open(vol, parentDir, name);
    if found {
      child.Close();
    }
  }

  /** callback_makeDirPath. */
  method CallMakeDirPath(vol: Volume, parentDir: SdFile, name: Name) returns (result: bool)
    requires parentDir.isOpen
    modifies vol
    ensures (result, vol.tree) == Called(MakeDirPath, old(vol.tree), parentDir.path, name)
  {
    result := CallPathExists(vol, parentDir, name);
    if !result {
      var (made, tree) := MakeDir(vol.tree, parentDir.path, name);
      vol.tree := tree;
      result := made;
    }
  }

  /** A callback is called with an open handle. */
  method Call(callback: Callback, vol: Volume, parentDir: SdFile, name: Name) returns (result: bool)
    requires parentDir.isOpen
    modifies vol
    ensures (result, vol.tree) == Called(callback, old(vol.tree), parentDir.path, name)
  {
    match callback {
      case PathExists => result := CallPathExists(vol, parentDir, name);
      case MakeDirPath => result := CallMakeDirPath(vol, parentDir, name);
      case AnyOther(outcome) =>
        var answer := outcome(vol.tree, parentDir.path, name);
        result, vol.tree := answer.0, answer.1;
    }
  }

  /** The two handles of a walk, on each way out of it. */
  datatype Outcome = Outcome(result: bool, subfile1: SdFile, subfile2: SdFile)

  /** walkPath: the callback is called for each component in turn, with an open handle of the directory walked to so
      far. The walk closes every handle it has opened, and only those: `parentDir` is not even written to. */
  method WalkPath(filepath: string, parentDir: SdFile, callback: Callback, vol: Volume) returns (o: Outcome)
    requires IsCString(filepath) && parentDir.isOpen
    modifies vol
    ensures (o.result, vol.tree) == Walked(callback, old(vol.tree), parentDir.path, Components(filepath, 0))
    ensures fresh(o.subfile1) && fresh(o.subfile2) && !o.subfile1.isOpen && !o.subfile2.isOpen
  {
    var subfile1 := new SdFile();
    var subfile2 := new SdFile();
    var p_child, p_parent := subfile1, parentDir;
    var offset := 0;
    while true
      invariant offset <= |filepath| && {p_child, p_parent} <= {subfile1, subfile2, parentDir}
      invariant p_child != parentDir && p_child != p_parent
      invariant p_parent.isOpen && subfile1.isOpen == (p_parent == subfile1)
      invariant subfile2.isOpen == (p_parent == subfile2)
      invariant p_parent == parentDir ==> p_child == subfile1
      invariant Walked(callback, old(vol.tree), parentDir.path, Components(filepath, 0))
             == Walked(callback, vol.tree, p_parent.path, Components(filepath, offset))
      decreases |filepath| - offset
    {
      ghost var names := Components(filepath, offset);
      var moreComponents, buffer;
      moreComponents, buffer, offset := GetNextPathComponent(filepath, offset);
      assert moreComponents ==> names[1..] == Components(filepath, offset);
      var shouldContinue := Call(callback, vol, p_parent, buffer);
      if !shouldContinue {
        if p_parent != parentDir {
          p_parent.Close();
        }
        return Outcome(false, subfile1, subfile2);
      }
      if !moreComponents {
        break;
      }
      var found := p_child.Open(vol, p_parent, buffer);
      if p_parent != parentDir {
        p_parent.Close();
      }
      if found {
        if p_parent == parentDir {
          p_parent := subfile2;
        }
        p_parent, p_child := p_child, p_parent;
      } else {
        return Outcome(false, subfile1, subfile2);
      }
    }
    if p_parent != parentDir {
      p_parent.Close();
    }
    o := Outcome(true, subfile1, subfile2);
  }

  // ----- What exists() and mkdir() promise -----

  /** The path walked to by the first i names. */
  function Prefix(parent: Path, names: seq<Name>, i: nat): Path
    requires i <= |names|
  {
    parent + names[..i]
  }

  lemma PrefixTail(parent: Path, names: seq<Name>, i: nat)
    requires names != [] && i < |names|
    ensures Prefix(parent + [names[0]], names[1..], i) == Prefix(parent, names, i + 1)
  {
    assert names[..i + 1] == [names[0]] + names[1..][..i];
  }

  /** The card after the callback has been called for the first n components, each with the directory that the ones
      before it lead to. */
  function AfterCalls(callback: Callback, tree: Tree, parent: Path, names: seq<Name>, n: nat): Tree
    requires n <= |names|
  {
    if n == 0 then tree
    else
      Called(callback, AfterCalls(callback, tree, parent, names, n - 1), Prefix(parent, names, n - 1), names[n - 1]).1
  }

  /** The walk goes on behind component i: the callback says so, and the component is found, if it is not the last. */
  ghost predicate GoesOn(callback: Callback, tree: Tree, parent: Path, names: seq<Name>, i: nat)
    requires i < |names|
  {
    var dir := Prefix(parent, names, i);
    && Called(callback, AfterCalls(callback, tree, parent, names, i), dir, names[i]).0
    && (i + 1 < |names| ==> Exists(AfterCalls(callback, tree, parent, names, i + 1), dir, names[i]))
  }

  lemma {:induction false} CallsDown(callback: Callback, tree: Tree, parent: Path, names: seq<Name>, n: nat)
    requires names != [] && n <= |names| - 1
    ensures AfterCalls(callback, Called(callback, tree, parent, names[0]).1, parent + [names[0]], names[1..], n)
         == AfterCalls(callback, tree, parent, names, n + 1)
    decreases n
  {
    hide Called;
    assert Prefix(parent, names, 0) == parent;
    if n > 0 {
      CallsDown(callback, tree, parent, names, n - 1);
      PrefixTail(parent, names, n - 1);
    }
  }

  /** Any walk calls the callback for its components in turn, up to the first one behind which it does not go on; it
      succeeds when there is none. */
  lemma {:induction false} WalkCalls(callback: Callback, tree: Tree, parent: Path, names: seq<Name>, n: nat)
    requires names != [] && n <= |names| && forall i :: 0 <= i < n ==> GoesOn(callback, tree, parent, names, i)
    requires n < |names| ==> !GoesOn(callback, tree, parent, names, n)
    ensures Walked(callback, tree, parent, names)
         == (n == |names|, AfterCalls(callback, tree, parent, names, if n < |names| then n + 1 else n))
    decreases |names|
  {
    hide Called, Exists;
    var (go, tree1) := Called(callback, tree, parent, names[0]);
    assert Prefix(parent, names, 0) == parent;
    assert AfterCalls(callback, tree, parent, names, 1) == tree1 by {
      assert AfterCalls(callback, tree, parent, names, 0) == tree;
    }
    if n > 0 {
      assert GoesOn(callback, tree, parent, names, 0);
      if |names| > 1 {
        var down, rest := parent + [names[0]], names[1..];
        forall i | 0 <= i < |rest|
          ensures GoesOn(callback, tree1, down, rest, i) == GoesOn(callback, tree, parent, names, i + 1)
        {
          CallsDown(callback, tree, parent, names, i);
          CallsDown(callback, tree, parent, names, i + 1);
          PrefixTail(parent, names, i);
        }
        WalkCalls(callback, tree1, down, rest, n - 1);
        CallsDown(callback, tree, parent, names, if n < |names| then n else n - 1);
      }
    }
  }

  /** Each component is found in the directory that the components before it lead to. */
  ghost predicate AllExist(tree: Tree, parent: Path, names: seq<Name>) {
    forall i :: 0 <= i < |names| ==> Exists(tree, Prefix(parent, names, i), names[i])
  }

  /** exists() says whether the whole path exists, and changes nothing. */
  lemma {:induction false} ExistsMeans(tree: Tree, parent: Path, names: seq<Name>)
    requires names != []
    ensures Walked(PathExists, tree, parent, names) == (AllExist(tree, parent, names), tree)
    decreases |names|
  {
    var down, rest := parent + [names[0]], names[1..];
    assert Prefix(parent, names, 0) == parent;
    forall i | 0 <= i < |rest|
      ensures Prefix(down, rest, i) == Prefix(parent, names, i + 1) && rest[i] == names[i + 1]
    {
      PrefixTail(parent, names, i);
    }
    if |names| > 1 {
      ExistsMeans(tree, down, rest);
      if AllExist(tree, down, rest) && Exists(tree, parent, names[0]) {
        forall i | 0 <= i < |names| ensures Exists(tree, Prefix(parent, names, i), names[i]) {
          if i > 0 {
            assert Exists(tree, Prefix(down, rest, i - 1), rest[i - 1]);
          }
        }
      }
      if AllExist(tree, parent, names) {
        forall i | 0 <= i < |rest| ensures Exists(tree, Prefix(down, rest, i), rest[i]) {
          assert Exists(tree, Prefix(parent, names, i + 1), names[i + 1]);
        }
      }
    }
  }

  /** mkdir() changes nothing that is there, and adds nothing but directories on the way. */
  ghost predicate OnlyAdds(tree: Tree, parent: Path, names: seq<Name>, after: Tree) {
    && (forall p :: p in tree ==> p in after && after[p] == tree[p])
    && (forall p :: p in after && p !in tree ==>
          after[p] == Directory && exists i :: 0 < i <= |names| && p == Prefix(parent, names, i))
  }

  lemma OnlyAddsFurther(tree: Tree, tree1: Tree, after: Tree, parent: Path, names: seq<Name>)
    requires names != []
    requires tree1 == tree || tree1 == tree[parent + [names[0]] := Directory]
    requires tree1 != tree ==> parent + [names[0]] !in tree
    requires after == tree1 || OnlyAdds(tree1, parent + [names[0]], names[1..], after)
    ensures OnlyAdds(tree, parent, names, after)
  {
    forall p | p in after && p !in tree
      ensures after[p] == Directory && exists i :: 0 < i <= |names| && p == Prefix(parent, names, i)
    {
      if p in tree1 {
        assert p == Prefix(parent, names, 1);
      } else {
        var i :| 0 < i <= |names[1..]| && p == Prefix(parent + [names[0]], names[1..], i);
        assert names[..i + 1] == [names[0]] + names[1..][..i];
        assert p == Prefix(parent, names, i + 1);
      }
    }
  }

  lemma {:induction false} MkdirOnlyAdds(tree: Tree, parent: Path, names: seq<Name>)
    requires names != []
    ensures OnlyAdds(tree, parent, names, Walked(MakeDirPath, tree, parent, names).1)
    decreases |names|
  {
    var (go, tree1) := Called(MakeDirPath, tree, parent, names[0]);
    if go && |names| > 1 && Exists(tree1, parent, names[0]) {
      MkdirOnlyAdds(tree1, parent + [names[0]], names[1..]);
    }
    OnlyAddsFurther(tree, tree1, Walked(MakeDirPath, tree, parent, names).1, parent, names);
  }

  /** After a successful mkdir() every component of the path exists: exists() would say so. */
  lemma {:induction false} MkdirThenExists(tree: Tree, parent: Path, names: seq<Name>)
    requires names != []
    ensures var (ok, after) := Walked(MakeDirPath, tree, parent, names);
            ok ==> Walked(PathExists, after, parent, names) == (true, after)
    decreases |names|
  {
    var (go, tree1) := Called(MakeDirPath, tree, parent, names[0]);
    if go && |names| > 1 && Exists(tree1, parent, names[0]) {
      MkdirThenExists(tree1, parent + [names[0]], names[1..]);
      MkdirOnlyAdds(tree1, parent + [names[0]], names[1..]);
    }
  }

  /** No file stands in the way: what the path passes through is a directory, if it is there at all. */
  ghost predicate Passable(tree: Tree, parent: Path, names: seq<Name>) {
    && parent in tree && tree[parent] == Directory
    && (forall i :: 0 <= i < |names| ==> names[i] != "")
    && (forall i :: 0 < i < |names| && Prefix(parent, names, i) in tree ==> tree[Prefix(parent, names, i)] == Directory)
  }

  lemma PassableDown(tree: Tree, parent: Path, names: seq<Name>)
    requires |names| > 1 && names[0] != "" && parent in tree && tree[parent] == Directory
    ensures var tree1 := Called(MakeDirPath, tree, parent, names[0]).1;
            Passable(tree, parent, names) <==> Passable(tree1, parent + [names[0]], names[1..])
  {
    var tree1 := Called(MakeDirPath, tree, parent, names[0]).1;
    var down, rest := parent + [names[0]], names[1..];
    assert down == Prefix(parent, names, 1);
    forall i | 0 < i < |rest|
      ensures Prefix(down, rest, i) == Prefix(parent, names, i + 1) && Prefix(down, rest, i) != down
    {
      PrefixTail(parent, names, i);
      assert |Prefix(down, rest, i)| > |down|;
    }
    if Passable(tree1, down, rest) {
      forall i | 0 <= i < |names| ensures names[i] != "" {
        assert i > 0 ==> rest[i - 1] == names[i];
      }
      forall i | 0 < i < |names| && Prefix(parent, names, i) in tree
        ensures tree[Prefix(parent, names, i)] == Directory
      {
        if i > 1 {
          assert Prefix(down, rest, i - 1) == Prefix(parent, names, i);
        }
      }
    }
  }

  /** mkdir() succeeds exactly when no file stands in the way and no component is empty. */
  lemma {:induction false} MkdirSucceeds(tree: Tree, parent: Path, names: seq<Name>)
    requires names != []
    ensures Walked(MakeDirPath, tree, parent, names).0 <==> Passable(tree, parent, names)
    decreases |names|
  {
    var (go, tree1) := Called(MakeDirPath, tree, parent, names[0]);
    if go && |names| > 1 {
      PassableDown(tree, parent, names);
      MkdirSucceeds(tree1, parent + [names[0]], names[1..]);
    }
  }

  // ----- Paths and components -----

  predicate IsName(name: Name) { name != "" && forall i :: 0 <= i < |name| ==> name[i] != '/' && name[i] != '\0' }

  /** The path /a/b/c of the names a, b and c. */
  function Joined(names: seq<Name>): string {
    if names == [] then "" else "/" + names[0] + Joined(names[1..])
  }

  lemma {:induction false} ComponentEndAt(path: string, offset: nat, taken: nat, end: nat)
    requires offset <= end <= |path| && taken + (end - offset) <= MAX_COMPONENT_LEN
    requires forall i :: offset <= i < end ==> path[i] != '/'
    requires end == |path| || path[end] == '/'
    ensures ComponentEnd(path, offset, taken) == end
    decreases end - offset
  {
    if offset < end {
      ComponentEndAt(path, offset + 1, taken + 1, end);
    }
  }

  /** The first component of a joined path; the offset goes past the separator after it. */
  lemma FirstComponent(path: string, before: string, slash: string, name: Name, rest: string)
    requires path == before + slash + name + rest && (slash == "" || slash == "/")
    requires IsName(name) && |name| <= MAX_COMPONENT_LEN && (rest == "" || rest[0] == '/')
    ensures NextComponent(path, |before|) == (name, |path| - |rest| + if rest == "" then 0 else 1)
  {
    var start := |before + slash|;
    assert path[start..start + |name|] == name;
    assert forall i :: start <= i < start + |name| ==> path[i] == name[i - start];
    assert slash == "" ==> path[|before|] == name[0];
    assert slash != "" ==> path[|before|] == '/';
    assert rest != "" ==> path[start + |name|] == rest[0];
    ComponentEndAt(path, start, 0, start + |name|);
  }

  /** The last component of a joined path. */
  lemma LastComponent(path: string, before: string, slash: string, name: Name)
    requires path == before + slash + name && (slash == "" || slash == "/")
    requires IsName(name) && |name| <= MAX_COMPONENT_LEN
    ensures |before| <= |path| && Components(path, |before|) == [name]
  {
    assert path == before + slash + name + "";
    FirstComponent(path, before, slash, name, "");
  }

  lemma ComponentsStep(path: string, offset: nat, name: Name, next: nat)
    requires offset <= |path| && NextComponent(path, offset) == (name, next)
    ensures Components(path, offset) == if next == |path| then [name] else [name] + Components(path, next)
  {
  }

  lemma MoveOn(path: string, before: string, slash: string, name: Name, rest: string, first: Name,
               last: string, past: string)
    requires path == before + slash + name + rest && rest == "/" + first + last
    requires past == before + slash + name + "/"
    ensures path == past + "" + first + last && |past| == |path| - |rest| + 1
  {
  }

  lemma {:induction false} ComponentsOfJoined(path: string, before: string, slash: string, name: Name, more: seq<Name>,
                                              rest: string)
    requires rest == Joined(more)
    requires path == before + slash + name + rest && (slash == "" || slash == "/")
    requires forall i :: 0 <= i < |more| ==> IsName(more[i]) && |more[i]| <= MAX_COMPONENT_LEN
    requires IsName(name) && |name| <= MAX_COMPONENT_LEN
    ensures |before| <= |path| && Components(path, |before|) == [name] + more
    decreases |more|
  {
    if more == [] {
      assert path == before + slash + name;
      LastComponent(path, before, slash, name);
    } else {
      var past, last := before + slash + name + "/", Joined(more[1..]);
      MoveOn(path, before, slash, name, rest, more[0], last, past);
      FirstComponent(path, before, slash, name, rest);
      ComponentsStep(path, |before|, name, |past|);
      ComponentsOfJoined(path, past, "", more[0], more[1..], last);
      assert [more[0]] + more[1..] == more;
    }
  }

  /** Joining names and taking the path apart gives the names back: exactly when none is longer than what the buffer
      holds. */
  lemma JoinSplit(names: seq<Name>)
    requires names != [] && forall i :: 0 <= i < |names| ==> IsName(names[i])
    ensures Components(Joined(names), 0) == names <==> forall i :: 0 <= i < |names| ==> |names[i]| <= 12
  {
    if forall i :: 0 <= i < |names| ==> |names[i]| <= MAX_COMPONENT_LEN {
      var path, rest := Joined(names), Joined(names[1..]);
      assert [] + "/" + names[0] + rest == "/" + names[0] + rest;
      ComponentsOfJoined(path, [], "/", names[0], names[1..], rest);
      assert [names[0]] + names[1..] == names;
    }
  }
}
