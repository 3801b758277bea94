/** POSIX path arithmetic used by the converter (`os.path.join`,
    `os.path.dirname`, `os.path.basename`) and the rule that names the
    object owning a field file after that file's grandparent directory. */
module Paths {
  import opened Text

  /** One past the position of the last `/`, or 0 when there is none: `p.rfind('/') + 1`. */
  function AfterLastSlash(p: string): (i: nat)
    ensures i <= |p|
    ensures i > 0 ==> p[i - 1] == '/'
    ensures forall k :: i <= k < |p| ==> p[k] != '/'
    decreases |p|
  {
    if p == [] then 0
    else if p[|p| - 1] == '/' then |p|
    else AfterLastSlash(p[..|p| - 1])
  }

  predicate AllSlashes(s: string)
  {
    forall k :: 0 <= k < |s| ==> s[k] == '/'
  }

  /** `s.rstrip('/')`. */
  function TrimTrailingSlashes(s: string): (r: string)
    ensures |r| <= |s| && r == s[..|r|]
    ensures r == [] || r[|r| - 1] != '/'
    ensures forall k :: |r| <= k < |s| ==> s[k] == '/'
    decreases |s|
  {
    if s != [] && s[|s| - 1] == '/' then TrimTrailingSlashes(s[..|s| - 1]) else s
  }

  /** `os.path.dirname(p)`: everything before the last `/`, trailing slashes
      removed unless nothing but slashes is left. */
  function DirName(p: string): string
  {
    var head := p[..AfterLastSlash(p)];
    if head != [] && !AllSlashes(head) then TrimTrailingSlashes(head) else head
  }

  /** `os.path.basename(p)`: everything after the last `/`. */
  function BaseName(p: string): string
  {
    p[AfterLastSlash(p)..]
  }

  /** `os.path.join(a, b)` for two components. */
  function JoinPath(a: string, b: string): string
  {
    if StartsWith(b, "/") then b
    else if a == [] || EndsWith(a, "/") then a + b
    else a + "/" + b
  }

  /** The owning object of a field file: the name of the directory two
      levels above it, with the custom marker removed. */
  function OwnerName(fieldPath: string): string
  {
    StripCustom(BaseName(DirName(DirName(fieldPath))))
  }

  /** A non-empty directory name with no slashes in it. */
  predicate IsComponent(s: string)
  {
    s != [] && '/' !in s
  }

  lemma AfterLastSlashOfChild(a: string, b: string)
    requires '/' !in b
    ensures AfterLastSlash(a + "/" + b) == |a| + 1
  {
    var p := a + "/" + b;
    var i := AfterLastSlash(p);
    assert p[|a|] == '/';
    if i > |a| + 1 {
      assert false;
    }
  }

  /** The parent of `a/b` is `a` when `b` is a plain name and `a` does not end in a slash. */
  lemma DirNameOfChild(a: string, b: string)
    requires a != [] && a[|a| - 1] != '/'
    requires '/' !in b
    ensures DirName(a + "/" + b) == a
  {
    var p := a + "/" + b;
    AfterLastSlashOfChild(a, b);
    var head := p[..|a| + 1];
    assert head == a + "/";
    assert head[|a| - 1] != '/';
    var r := TrimTrailingSlashes(head);
    assert r != head;
  }

  lemma BaseNameOfChild(a: string, b: string)
    requires '/' !in b
    ensures BaseName(a + "/" + b) == b
  {
    AfterLastSlashOfChild(a, b);
    assert (a + "/" + b)[|a| + 1..] == b;
  }

  /** A field file laid out as `base/obj/dir/file` belongs to `obj`, whatever
      `base` is, once the marker is removed. */
  lemma OwnerNameOfLayout(base: string, obj: string, dir: string, file: string)
    requires IsComponent(obj) && IsComponent(dir) && '/' !in file
    ensures OwnerName(base + "/" + obj + "/" + dir + "/" + file) == StripCustom(obj)
  {
    var objPath := base + "/" + obj;
    var dirPath := objPath + "/" + dir;
    assert objPath[|objPath| - 1] == obj[|obj| - 1];
    assert dirPath[|dirPath| - 1] == dir[|dir| - 1];
    assert base + "/" + obj + "/" + dir + "/" + file == dirPath + "/" + file;
    DirNameOfChild(dirPath, file);
    DirNameOfChild(objPath, dir);
    BaseNameOfChild(base, obj);
  }

  /** A field file at the relative path `obj/dir/file`, as the walk yields
      when it starts inside one object's folder, also belongs to `obj`. */
  lemma OwnerNameOfRelativeLayout(obj: string, dir: string, file: string)
    requires IsComponent(obj) && IsComponent(dir) && '/' !in file
    ensures OwnerName(obj + "/" + dir + "/" + file) == StripCustom(obj)
  {
    var dirPath := obj + "/" + dir;
    assert dirPath[|dirPath| - 1] == dir[|dir| - 1];
    assert obj[|obj| - 1] in obj;
    DirNameOfChild(dirPath, file);
    DirNameOfChild(obj, dir);
    assert AfterLastSlash(obj) == 0;
    assert BaseName(obj) == obj;
  }

  /** Joining a directory (not ending in a slash) and a plain file name inserts one slash. */
  lemma JoinPathOfPlainName(root: string, name: string)
    requires root != [] && root[|root| - 1] != '/'
    requires name != [] && '/' !in name
    ensures JoinPath(root, name) == root + "/" + name
  {
    assert name[0] in name;
  }
}
