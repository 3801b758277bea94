# Salesforce metadata to Mermaid ER diagram: a Dafny model

`convert_to_erd.py` reads a Salesforce metadata export and writes a Mermaid
`erDiagram`. The export is an unpacked tree of `*.object-meta.xml` and
`*.field-meta.xml` files. The script works in stages, and this project
models each of them:

- **Locating the files.** Every file of the directory walk is classified by
  its suffix. Directories whose path contains `__MACOSX` are skipped
  (`SourceLocator`, over `Paths` for `os.path.join`).
- **Field records.** Each field file gives a record with four parts:
  - the label, with spaces removed;
  - the type tag;
  - the reference targets, with every `__c` removed;
  - the owning object, which is the grandparent directory of the file with
    every `__c` removed.

  This is in `Fields`, over `Text` and `Paths`.
- **Grouping.** Fields are grouped by owning object into an
  insertion-ordered dictionary (`Grouping`).
- **Relationship inference.** Every target of a `MasterDetail` or `Lookup`
  field gives one line, read from the referenced object to the owner
  (`Relationships`).
- **Entity rendering.** Each object gets one block with one `type label`
  line per surviving field:
  - fields whose label contains `(Obsolete)` are dropped;
  - unless all fields are kept, fields without reference targets are
    dropped too.

  Surviving labels are reduced to their alphanumeric characters, and the
  field's stored label is overwritten with the result (`Entities`).
- **Assembly.** The output is the `erDiagram` header, then the blocks and the
  relationship lines joined by newlines (`Diagram`).

The modules divide the work as follows.

- **`Seqs`** holds the one filtering function that the script's
  comprehensions share, with its laws. `Wrappers` holds `Option` and
  `Result`.
- **Loops become methods.** The script's loops are methods with loop
  invariants: `LocateSources`, `GroupByObject`, `InferRelationships`,
  `RenderEntity` and `RenderEntities`.
- **Each method is proved against a specification function:** `Collected`,
  `GroupFields`, `EdgesOf`/`RenderEdges`, `Block`/`RelabelAll` and
  `ErDiagram`. The lemmas state what those functions mean.
- **`ConvertToErd` runs the whole pipeline** after the walk: parse, group,
  infer, render and assemble. It is proved equal to `ErDiagram`.
- **A missing label is an error for the whole run.** The script's
  `"(Obsolete)" in field['label']` raises on such a label before anything is
  written, so the model returns `Err(MissingLabel)` for the run. A missing
  type is written as `None`, as Python's f-string writes it.
- **The empty case.** For an export with no field files, one might expect the
  single line `erDiagram`. The code writes `erDiagram` followed by a newline,
  and the model follows the code (`Diagram.NoFieldsGivesHeaderOnly`).

## Model

| member | source | states |
|---|---|---|
| SourceLocator.Classify | convert_to_erd.py:32-35 | a name is an object descriptor exactly when it ends in `object-meta.xml`, and a field descriptor exactly when it ends in `field-meta.xml` |
| SourceLocator.IsSkipped | convert_to_erd.py:29 | definition: a directory is skipped exactly when its path contains `__MACOSX` anywhere |
| SourceLocator.LocateSources | convert_to_erd.py:26-35 | the two lists built by the walk are the object and field descriptor paths of all non-skipped directories, in walk order |
| SourceLocator.ClassifyFiles | convert_to_erd.py:31-35 | the inner loop collects the joined paths of exactly the files of each kind in one directory, in order |
| SourceLocator.PathsOfKind | convert_to_erd.py:31-35 | definition: the joined paths of one directory's files of the given kind, in file order |
| SourceLocator.Collected | convert_to_erd.py:26-35 | definition: the paths of the given kind over the whole walk, in walk order, with nothing from a directory whose path contains `__MACOSX` |
| SourceLocator.PathsOfKindMembership | convert_to_erd.py:31-35 | a path is collected from a directory exactly when one of its files has that kind and joins to that path |
| SourceLocator.CollectedEntries | convert_to_erd.py:28-30 | a path is collected exactly when some directory of the walk whose path does not contain `__MACOSX` yields it |
| SourceLocator.CollectedMembership | convert_to_erd.py:28-35 | a path is collected exactly when some non-skipped directory holds a file of that kind whose joined path it is |
| Paths.DirName | convert_to_erd.py:77-78 | definition of `os.path.dirname`: everything before the last `/`, with trailing slashes removed unless only slashes remain |
| Paths.BaseName | convert_to_erd.py:77-78 | definition of `os.path.basename`: everything after the last `/` |
| Paths.JoinPath | convert_to_erd.py:33 | definition of `os.path.join` for two parts: an absolute second part wins; no slash is added after an empty or slash-ended first part; otherwise one `/` goes between them |
| Paths.OwnerName | convert_to_erd.py:77-78 | definition: the base name of the grandparent directory of the field file, with every `__c` removed |
| Paths.JoinPathOfPlainName | convert_to_erd.py:33 | joining a directory that does not end in a slash with a plain file name inserts exactly one slash |
| Paths.DirNameOfChild | convert_to_erd.py:77 | the parent directory of `a/b` is `a` when `a` is non-empty and does not end in `/`, and `b` is a plain name |
| Paths.BaseNameOfChild | convert_to_erd.py:77 | the last component of `a/b` is `b` when `b` is a plain name |
| Paths.OwnerNameOfLayout | convert_to_erd.py:77-78 | a file at `base/obj/dir/file` is owned by `obj` with the marker removed, whatever `base` is |
| Paths.OwnerNameOfRelativeLayout | convert_to_erd.py:77-78 | a file at the relative path `obj/dir/file`, as the walk yields when it starts inside one object folder, is owned by `obj` with the marker removed |
| Text.RemoveSpaces | convert_to_erd.py:82 | the cleaned label holds no space and is a subsequence of the original |
| Text.Contains | convert_to_erd.py:127 | definition of Python's substring `in`: the pattern starts at some position of the string; also used for the `__MACOSX` test at line 29 |
| Text.EndsWith | convert_to_erd.py:32-34 | definition of `str.endswith`: the pattern is no longer than the string and equals its last characters |
| Text.Sanitize | convert_to_erd.py:133 | the sanitized label holds only letters and digits and is a subsequence of the original |
| Text.SanitizeIdempotent | convert_to_erd.py:133 | sanitizing twice is the same as sanitizing once |
| Text.SanitizeFixpoint | convert_to_erd.py:133 | the sanitizer leaves a label unchanged exactly when every character is alphanumeric |
| Text.SanitizeAfterRemoveSpaces | convert_to_erd.py:133 | sanitizing a label whose spaces were removed at parse time gives the same result as sanitizing the raw label |
| Text.StripCustom | convert_to_erd.py:73 | the replacement never lengthens a name and removes a multiple of three characters |
| Text.StripCustomTrailingMarker | convert_to_erd.py:77-78 | a trailing `__c`, as in a directory `Account__c`, is removed without changing the rest of the result |
| Text.StripCustomNoMarker | convert_to_erd.py:73 | a name without `__c` is left unchanged |
| Text.StripCustomCanLeaveMarker | convert_to_erd.py:73 | the replacement is not a suffix strip: `____cc` becomes `__c` |
| Text.JoinLines | convert_to_erd.py:142 | definition of `"\n".join`: empty for no lines, the line itself for one line, otherwise one newline between consecutive lines |
| Text.JoinLinesAppend | convert_to_erd.py:141-142 | joining a concatenation of two non-empty lists puts exactly one newline between the joins of the parts |
| Fields.ParseField | convert_to_erd.py:73-86 | the label is absent exactly when its element is; a present label holds no space and is a subsequence of the text; the type is passed through; there is one target per referenceTo element |
| Fields.ParseFields | convert_to_erd.py:90 | one record per field file, in file order, each with its label absent exactly when the file has none |
| Fields.ParseFieldOfLayout | convert_to_erd.py:73-78 | a field in `base/obj/dir/file`, or in the relative `obj/dir/file`, is owned by `obj` without the marker; targets without the marker are unchanged; a target `Name__c` becomes `Name` |
| Grouping.FirstSeen | convert_to_erd.py:93-97 | the keys are distinct, and a name is a key exactly when it owns some field |
| Grouping.FieldsOf | convert_to_erd.py:96-99 | every field in an object's list is owned by that object |
| Grouping.GroupFields | convert_to_erd.py:93-99 | definition of the dictionary: the first-seen owners as keys, each mapped to its own fields in input order |
| Grouping.Flatten | convert_to_erd.py:105 | definition of the iteration over `.values()`: the groups' lists concatenated in key order |
| Grouping.GroupByObject | convert_to_erd.py:93-99 | the dictionary built by the loop has its keys in first-seen order, each key's list holding that object's fields, and the keys listed are exactly its keys, once each |
| Grouping.FieldsOfAbsent | convert_to_erd.py:96-97 | an object's list is empty exactly when the object owns no field |
| Grouping.GroupMembership | convert_to_erd.py:93-99 | a field is in an object's list exactly when it is an input field owned by that object |
| Grouping.GroupKeepsOrder | convert_to_erd.py:99 | within a list, fields keep their input order |
| Grouping.GroupingIsPermutation | convert_to_erd.py:93-99 | the lists concatenated in key order contain every input field exactly as often as the input does |
| Grouping.GroupsInFirstSeenOrder | convert_to_erd.py:94-97 | an earlier key's object owns a field before any field of a later key's object |
| Grouping.FlattenGroupFields | convert_to_erd.py:105 | a loop over the dictionary's values visits, in order, each key's fields as computed from the input |
| Relationships.FieldEdges | convert_to_erd.py:107-114 | a master-detail or lookup field gives one edge per target; any other field, including one without a type, gives none |
| Relationships.NotationFor | convert_to_erd.py:109-114 | definition: `MasterDetail` gives the one-to-one-or-more notation, `Lookup` the zero-or-one-to-zero-or-more notation (the exact strings are in the `Relationships.TargetLine` row), and every other type, a missing one included, gives none, so the target is skipped |
| Relationships.RenderEdges | convert_to_erd.py:116-117 | one line per edge |
| Relationships.EdgeLine | convert_to_erd.py:116-117 | definition of the line text: two spaces, the referenced object, the notation, the owning object, then ` : contains` |
| Relationships.EdgesOf | convert_to_erd.py:105-117 | definition: the edges of each field in turn, in field order and target order |
| Relationships.InferRelationships | convert_to_erd.py:102-117 | the lines built by the triple loop are the lines of the edges of the dictionary's fields, in key order, field order and target order |
| Relationships.ListRelationships | convert_to_erd.py:106-117 | the lines of one object's list are the lines of its fields' edges, in order |
| Relationships.FieldRelationships | convert_to_erd.py:107-117 | the lines of one field are the lines of its edges, and none for a field of another type |
| Relationships.EdgeCount | convert_to_erd.py:105-117 | the number of edges is the number of targets summed over master-detail and lookup fields, with no deduplication |
| Relationships.EdgeOrigin | convert_to_erd.py:105-117 | an edge is produced exactly when it is the edge of some target of some reference field: target first, owner second, with the notation of the field's type |
| Relationships.TargetLine | convert_to_erd.py:109-117 | a master-detail target gives `  target ||--}| owner : contains` and a lookup target gives `  target o|--o{ owner : contains` |
| Relationships.RelationshipLines | convert_to_erd.py:105-117 | a line is produced exactly when it is the line of some target of some reference field |
| Relationships.EdgesOfPermutation | convert_to_erd.py:105-106 | visiting the same fields in another order gives the same edges in another order |
| Relationships.GroupedEdges | convert_to_erd.py:105-117 | inference over the grouped fields yields the same edges as over the input, up to order, one per target |
| Entities.Survivors | convert_to_erd.py:126-131 | no surviving field is obsolete, and when not all fields are kept every survivor has a target |
| Entities.IsObsolete | convert_to_erd.py:127 | definition: a present label that contains `(Obsolete)` at some position; a missing label is the run's error, decided before this test |
| Entities.Renders | convert_to_erd.py:127-131 | definition of the two filters: a field gets a line exactly when it is not obsolete and either all fields are kept or it has at least one reference target |
| Entities.TypeText | convert_to_erd.py:134 | definition: a present type is written as it is, and a missing type is written `None`, as the f-string writes it |
| Entities.BlockHeader | convert_to_erd.py:123 | definition: two spaces, the object name, then ` {` |
| Entities.LineText | convert_to_erd.py:134 | definition: a newline, four spaces, the type text, a space, then the label text |
| Entities.AttributeLine | convert_to_erd.py:133-134 | definition: a newline, four spaces, the type text, a space, then the sanitized label |
| Entities.Block | convert_to_erd.py:123-136 | definition: `  name {`, the lines of the surviving fields in order, then a newline and `  }` |
| Entities.AttributeLines | convert_to_erd.py:125-134 | definition of the accumulation: the lines of the fields that get one, in field order, and nothing for the others |
| Entities.Relabel | convert_to_erd.py:133 | definition of the overwrite: a field that gets a line has its label replaced by the sanitized label; a skipped field is left as it is |
| Entities.RelabelAll | convert_to_erd.py:125-133 | the overwritten list has the same length as the original, with each field relabelled in place |
| Entities.SurvivorsExactly | convert_to_erd.py:126-131 | a field gets a line exactly when it is an input field, its label does not contain `(Obsolete)`, and either all fields are kept or it has a target |
| Entities.RenderField | convert_to_erd.py:126-134 | a surviving field gets its `type label` line and its sanitized label; any other field gets no line and keeps its label |
| Entities.RenderEntity | convert_to_erd.py:122-136 | rendering one object fails exactly when one of its fields has no label; otherwise the block is header, lines and closing brace, and the list has its surviving labels sanitized |
| Entities.RenderEntities | convert_to_erd.py:120-138 | rendering fails exactly when some object has a field without a label; otherwise there is one block per key in key order, and every list has its surviving labels sanitized, with the keys unchanged |
| Entities.RenderedGroups | convert_to_erd.py:120-138 | after the loop, the i-th block is the block of the i-th key, and the dictionary holds every list relabelled under the same keys |
| Entities.AttributeLinesOfSurvivors | convert_to_erd.py:125-134 | a block's lines are exactly the lines of the surviving fields, in order |
| Entities.BlockShape | convert_to_erd.py:123-136 | each block is `  name {`, one line per survivor, then a newline and `  }`; an object with no survivor still gets the empty block |
| Diagram.ConvertToErd | convert_to_erd.py:90-142 | the whole pipeline after the walk computes the diagram of the parsed fields, or the missing-label error |
| Diagram.ErDiagram | convert_to_erd.py:90-142 | definition of the run's result: the missing-label error when any field lacks a label, otherwise the assembled blocks of the first-seen owners and the relationship lines of the grouped fields |
| Diagram.Assemble | convert_to_erd.py:141-142 | definition: the `erDiagram` header and newline, then the blocks followed by the relationship lines, joined by newlines |
| Diagram.ErDiagramShape | convert_to_erd.py:121-142 | the run fails exactly when some field has no label, whatever the flag; otherwise it gives one block per owning object and one relationship line per target of a reference field |
| Diagram.GroupsFailExactly | convert_to_erd.py:121-127 | some object's list has a field without a label exactly when some input field has none |
| Diagram.AssembleParts | convert_to_erd.py:141-142 | the output is the header, the blocks joined by newlines, one newline between blocks and relationships when both exist, then the relationship lines joined by newlines |
| Diagram.NoFieldsGivesHeaderOnly | convert_to_erd.py:141-142 | with no field files the output is exactly `erDiagram` followed by a newline |

## Left out

- **Argument handling** (convert_to_erd.py:7-17). Reading `sys.argv`, the
  usage message and `sys.exit` are process I/O. The keep-all flag is a `bool`
  parameter.
- **Zip extraction and the walk itself** (convert_to_erd.py:19-23, 28). These
  are filesystem I/O. The walk is an input, given as one entry per visited
  directory with its path and file names, in `os.walk` order.
- **XML parsing** (convert_to_erd.py:61-70). ElementTree is a foreign
  library. Its results are an input: the label and type texts, with `None`
  for an absent element, and the referenceTo texts.
- **An element that is present but empty.** ElementTree gives such an element
  the text `None`, and the script then raises when it calls `.replace`. Here
  element texts are always strings, so that crash is not modelled.
- **`parse_object_file` and `objects_data`** (convert_to_erd.py:40-54). They
  are computed but never used afterwards.
- **Output** (convert_to_erd.py:144-148). Creating the directory and writing
  the file are I/O. `ConvertToErd` returns the text that would be written.
- **Text.IsAlnum: ASCII only.** Python's `str.isalnum` also accepts non-ASCII
  letters and digits, and those Unicode tables are not modelled.
- **Paths: POSIX `os.path` only.** The model covers `dirname`, `basename` and
  `join` with `/` as the separator. It does not model Windows separators or
  drive letters.
- **Relationships.NotationFor** has no contract of its own. The notation a
  field type gets is stated by `Relationships.TargetLine`.
- **Entities.RenderEntities: the dictionary becomes a list.** The script
  collects the blocks in a dictionary keyed by object name. Its keys are the
  grouping keys, which are distinct and in the same order, so the model
  keeps the blocks as a list in key order.
- **Entities.RenderEntities: the label overwrite is a returned value.** The
  script overwrites labels in place. That shows up as the returned lists.
  The sharing between `fields_data` and the grouped lists is not modelled;
  nothing reads the labels afterwards.
- **Diagram.ConvertToErd: relationships are built before any error.** It
  infers relationships before rendering, as the script does. When rendering
  fails, the script ends before writing anything, so the model returns only
  the error.
