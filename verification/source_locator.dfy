/** Locating the metadata files: every file of a directory walk is
    classified by the suffix of its name, and walk entries inside an
    archive-artifact folder are skipped. The walk itself is an input: one
    entry per directory visited, with the names of the files in it. */
module SourceLocator {
  import opened Text
  import opened Paths

  const OBJECT_SUFFIX: string := "object-meta.xml"
  const FIELD_SUFFIX: string := "field-meta.xml"
  /** A directory whose path contains this is an archive artifact and is ignored. */
  const ARTIFACT_MARKER: string := "__MACOSX"

  datatype FileKind = ObjectDescriptor | FieldDescriptor | OtherFile

  /** One directory visited by the walk: its path and the names of its files. */
  datatype WalkEntry = WalkEntry(root: string, files: seq<string>)

  /** The kind of a file, by the suffix of its name. The two suffixes
      exclude each other, so the order of the tests does not matter. */
  function Classify(name: string): (k: FileKind)
    ensures k == ObjectDescriptor <==> EndsWith(name, OBJECT_SUFFIX)
    ensures k == FieldDescriptor <==> EndsWith(name, FIELD_SUFFIX)
  {
    if EndsWith(name, OBJECT_SUFFIX) then
      assert name[|name| - 15] == 'o' && name[|name| - 14] == 'b';
      ObjectDescriptor
    else if EndsWith(name, FIELD_SUFFIX) then FieldDescriptor
    else OtherFile
  }

  predicate IsSkipped(root: string)
  {
    Contains(root, ARTIFACT_MARKER)
  }

  /** The paths of the files of kind `kind` among `files`, in order. */
  function PathsOfKind(root: string, files: seq<string>, kind: FileKind): seq<string>
  {
    if files == [] then []
    else
      var name := files[|files| - 1];
      PathsOfKind(root, files[..|files| - 1], kind) + (if Classify(name) == kind then [JoinPath(root, name)] else [])
  }

  /** The paths of kind `kind` over a whole walk, skipped entries left out. */
  function Collected(walk: seq<WalkEntry>, kind: FileKind): seq<string>
  {
    if walk == [] then []
    else
      var e := walk[|walk| - 1];
      Collected(walk[..|walk| - 1], kind) + (if IsSkipped(e.root) then [] else PathsOfKind(e.root, e.files, kind))
  }

  /** The two lists the walk produces: object descriptors and field descriptors. */
  method LocateSources(walk: seq<WalkEntry>) returns (objectFiles: seq<string>, fieldFiles: seq<string>)
    ensures objectFiles == Collected(walk, ObjectDescriptor)
    ensures fieldFiles == Collected(walk, FieldDescriptor)
  {
    objectFiles, fieldFiles := [], [];
    for i := 0 to |walk|
      invariant objectFiles == Collected(walk[..i], ObjectDescriptor)
      invariant fieldFiles == Collected(walk[..i], FieldDescriptor)
    {
      var e := walk[i];
      assert walk[..i + 1][..i] == walk[..i];
      if IsSkipped(e.root) {
        continue;
      }
      var objects, fields := ClassifyFiles(e.root, e.files);
      objectFiles := objectFiles + objects;
      fieldFiles := fieldFiles + fields;
    }
    assert walk[..|walk|] == walk;
  }

  /** The inner loop of the walk: the descriptors among one directory's files. */
  method ClassifyFiles(root: string, files: seq<string>) returns (objectFiles: seq<string>, fieldFiles: seq<string>)
    ensures objectFiles == PathsOfKind(root, files, ObjectDescriptor)
    ensures fieldFiles == PathsOfKind(root, files, FieldDescriptor)
  {
    objectFiles, fieldFiles := [], [];
    for j := 0 to |files|
      invariant objectFiles == PathsOfKind(root, files[..j], ObjectDescriptor)
      invariant fieldFiles == PathsOfKind(root, files[..j], FieldDescriptor)
    {
      var name := files[j];
      assert files[..j + 1][..j] == files[..j];
      if EndsWith(name, OBJECT_SUFFIX) {
        objectFiles := objectFiles + [JoinPath(root, name)];
      } else if EndsWith(name, FIELD_SUFFIX) {
        fieldFiles := fieldFiles + [JoinPath(root, name)];
      }
    }
    assert files[..|files|] == files;
  }

  lemma {:induction false} PathsOfKindMembership(root: string, files: seq<string>, kind: FileKind, p: string)
    ensures p in PathsOfKind(root, files, kind) <==>
            exists j :: 0 <= j < |files| && Classify(files[j]) == kind && p == JoinPath(root, files[j])
    decreases |files|
  {
    if files != [] {
      var init := files[..|files| - 1];
      PathsOfKindMembership(root, init, kind, p);
      assert forall j :: 0 <= j < |init| ==> init[j] == files[j];
    }
  }

  /** A directory of the walk yields the path: it is not skipped, and one
      of its files of that kind joins to the path. */
  predicate Yields(e: WalkEntry, kind: FileKind, p: string)
  {
    !IsSkipped(e.root) && p in PathsOfKind(e.root, e.files, kind)
  }

  /** A path is collected exactly when some directory of the walk yields it. */
  lemma {:induction false} CollectedEntries(walk: seq<WalkEntry>, kind: FileKind, p: string)
    ensures p in Collected(walk, kind) <==> exists e :: e in walk && Yields(e, kind, p)
    decreases |walk|
  {
    if walk != [] {
      var init, last := walk[..|walk| - 1], walk[|walk| - 1];
      assert walk == init + [last];
      CollectedEntries(init, kind, p);
      if p in Collected(walk, kind) && p !in Collected(init, kind) {
        assert Yields(last, kind, p);
      }
      if exists e :: e in walk && Yields(e, kind, p) {
        var e :| e in walk && Yields(e, kind, p);
        if e != last {
          assert e in init;
        }
      }
    }
  }

  /** A path is collected exactly when some non-skipped directory holds a
      file of that kind whose joined path it is. */
  lemma CollectedMembership(walk: seq<WalkEntry>, kind: FileKind, p: string)
    ensures p in Collected(walk, kind) <==>
            exists i, j :: 0 <= i < |walk| && !IsSkipped(walk[i].root) && 0 <= j < |walk[i].files|
                           && Classify(walk[i].files[j]) == kind && p == JoinPath(walk[i].root, walk[i].files[j])
  {
    CollectedEntries(walk, kind, p);
    if p in Collected(walk, kind) {
      var e :| e in walk && Yields(e, kind, p);
      var i :| 0 <= i < |walk| && walk[i] == e;
      PathsOfKindMembership(e.root, e.files, kind, p);
    }
    if exists i, j :: 0 <= i < |walk| && !IsSkipped(walk[i].root) && 0 <= j < |walk[i].files|
                      && Classify(walk[i].files[j]) == kind && p == JoinPath(walk[i].root, walk[i].files[j]) {
      var i, j :| 0 <= i < |walk| && !IsSkipped(walk[i].root) && 0 <= j < |walk[i].files|
                  && Classify(walk[i].files[j]) == kind && p == JoinPath(walk[i].root, walk[i].files[j]);
      PathsOfKindMembership(walk[i].root, walk[i].files, kind, p);
      assert Yields(walk[i], kind, p);
    }
  }
}
