/**
  A directory tree as a key/value store (packvault/storage/local.py). Files and directories are
  named by their path relative to the root, with "/" between segments; the root itself is "".
*/
module FileTree {
  import opened Basics

  /** No empty segment: the names that a tree node can have. */
  predicate Clean(name: string) {
    && name != "" && name[0] != '/' && name[|name| - 1] != '/'
    && forall i :: 0 < i < |name| && name[i] == '/' ==> name[i - 1] != '/'
  }

  /** `a` is a proper ancestor of `name`, segment by segment. */
  predicate Ancestor(a: string, name: string) {
    |a| < |name| && name[..|a|] == a && name[|a|] == '/'
  }

  /** The key equals the prefix or lies below it; everything lies below the root. */
  predicate Under(key: string, prefix: string) {
    prefix == "" || key == prefix || Ancestor(prefix, key)
  }

  function Ancestors(name: string): (r: set<string>)
    ensures forall a :: a in r <==> Ancestor(a, name)
  {
    set i | 0 <= i < |name| && name[i] == '/' :: name[..i]
  }

  datatype Tree = Tree(files: map<string, Bytes>, dirs: set<string>)

  predicate Exists(t: Tree, name: string) {
    name in t.files || name in t.dirs
  }

  /** Files are not directories, and everything above a file or directory is a directory. */
  ghost predicate TreeOk(t: Tree) {
    && t.files.Keys !! t.dirs
    && (forall name :: Exists(t, name) ==> Clean(name))
    && (forall name, a :: Exists(t, name) && Ancestor(a, name) ==> a in t.dirs)
  }

  // ---------------------------------------------------------------------------------------------
  // The system calls that change the tree, each of which is atomic.

  datatype SysCall =
    | MakeDirs(key: string)
    | Link(key: string, content: Bytes)
    | Replace(key: string, content: Bytes)
    | Remove(key: string)

  datatype Errno = Done | Exist | IsDirectory | NoParent | NotFile

  predicate HasParent(t: Tree, key: string) {
    forall a :: a in Ancestors(key) ==> a in t.dirs
  }

  /** What the call answers; only `Done` changes the tree. */
  function SysReturn(t: Tree, call: SysCall): Errno {
    match call
    case MakeDirs(key) => if exists a :: a in Ancestors(key) && a in t.files then Exist else Done
    case Link(key, _) => if !HasParent(t, key) then NoParent else if Exists(t, key) then Exist else Done
    case Replace(key, _) => if !HasParent(t, key) then NoParent else if key in t.dirs then IsDirectory else Done
    case Remove(key) => if key in t.files then Done else NotFile
  }

  function Effect(t: Tree, call: SysCall): Tree {
    if SysReturn(t, call) != Done then t
    else match call
      case MakeDirs(key) => t.(dirs := t.dirs + Ancestors(key))
      case Link(key, content) => t.(files := t.files[key := content])
      case Replace(key, content) => t.(files := t.files[key := content])
      case Remove(key) => t.(files := t.files - {key})
  }

  function RunCalls(t: Tree, calls: seq<SysCall>): Tree {
    if calls == [] then t else Effect(RunCalls(t, calls[..|calls| - 1]), calls[|calls| - 1])
  }

  lemma AncestorTransitive(a: string, b: string, c: string)
    requires Ancestor(a, b) && Ancestor(b, c)
    ensures Ancestor(a, c)
  {
    assert c[..|b|][..|a|] == c[..|a|];
  }

  lemma AncestorClean(a: string, name: string)
    requires Ancestor(a, name) && Clean(name)
    ensures Clean(a)
  {
    assert name[0] != '/';
    forall i | 0 < i < |a| && a[i] == '/' ensures a[i - 1] != '/' {
      assert name[i] == a[i] && name[i - 1] == a[i - 1];
    }
    assert name[|a| - 1] != '/';
  }

  lemma CleanJoined(a: string, b: string)
    requires Clean(a) && Clean(b)
    ensures Clean(a + "/" + b)
  {
    var s, n := a + "/" + b, |a| + 1;
    assert s[0] == a[0] && s[|s| - 1] == b[|b| - 1];
    forall i | 0 < i < |s| && s[i] == '/' ensures s[i - 1] != '/' {
      if i < n {
        assert s[i - 1] == a[i - 1] && (i < |a| ==> a[i] == '/');
      } else {
        assert s[i] == b[i - n];
      }
    }
  }

  lemma CallKeepsTree(t: Tree, call: SysCall)
    requires TreeOk(t) && Clean(call.key)
    ensures TreeOk(Effect(t, call))
  {
    if call.MakeDirs? && SysReturn(t, call) == Done {
      forall a | Ancestor(a, call.key) ensures Clean(a) { AncestorClean(a, call.key); }
      forall name, a | name in Ancestors(call.key) && Ancestor(a, name) ensures a in Ancestors(call.key) {
        AncestorTransitive(a, name, call.key);
      }
    }
  }

  /** Any interleaving of the calls of any puts and deletes keeps the tree invariant. */
  lemma {:induction false} RunKeepsTree(t: Tree, calls: seq<SysCall>)
    requires TreeOk(t) && forall i :: 0 <= i < |calls| ==> Clean(calls[i].key)
    ensures TreeOk(RunCalls(t, calls)) && t.dirs <= RunCalls(t, calls).dirs
  {
    if calls != [] {
      RunKeepsTree(t, calls[..|calls| - 1]);
      CallKeepsTree(RunCalls(t, calls[..|calls| - 1]), calls[|calls| - 1]);
    }
  }

  /** No stored key is an ancestor of another. */
  lemma StoredKeysPrefixFree(t: Tree, a: string, b: string)
    requires TreeOk(t) && a in t.files && b in t.files
    ensures !Ancestor(a, b)
  {
    assert Exists(t, b);
  }

  /** Directories never go away, so a put that made its directories can always place its file. */
  lemma ParentStays(t: Tree, calls: seq<SysCall>, key: string)
    requires TreeOk(t) && SysReturn(t, MakeDirs(key)) == Done && Clean(key)
    requires forall i :: 0 <= i < |calls| ==> Clean(calls[i].key)
    ensures HasParent(RunCalls(Effect(t, MakeDirs(key)), calls), key)
  {
    CallKeepsTree(t, MakeDirs(key));
    RunKeepsTree(Effect(t, MakeDirs(key)), calls);
  }

  /** In any interleaving, a linked file keeps its content until somebody replaces or removes it. */
  lemma {:induction false} LinkedStays(t: Tree, calls: seq<SysCall>, key: string)
    requires key in t.files
    requires forall i :: 0 <= i < |calls| && calls[i].key == key ==> calls[i].Link? || calls[i].MakeDirs?
    ensures key in RunCalls(t, calls).files && RunCalls(t, calls).files[key] == t.files[key]
  {
    if calls != [] { LinkedStays(t, calls[..|calls| - 1], key); }
  }

  // ---------------------------------------------------------------------------------------------
  // What a listing sees.

  function KeysUnder(t: Tree, prefix: string): set<string> {
    set key | key in t.files && Under(key, prefix)
  }

  lemma FileHasNothingBelow(t: Tree, prefix: string)
    requires TreeOk(t) && prefix in t.files
    ensures KeysUnder(t, prefix) == {prefix}
  {
    forall key | key in t.files && Under(key, prefix) ensures key == prefix {
      assert Exists(t, key) && Exists(t, prefix);
    }
  }

  lemma MissingHasNothingBelow(t: Tree, prefix: string)
    requires TreeOk(t) && prefix != "" && !Exists(t, prefix)
    ensures KeysUnder(t, prefix) == {}
  {
    forall key | key in t.files && Under(key, prefix) ensures false {
      assert Exists(t, key);
    }
  }
}
