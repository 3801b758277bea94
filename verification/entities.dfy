/** Entity rendering: one block per object, holding a `type label` line for
    every field that is neither obsolete nor, unless all fields are kept,
    without reference targets (convert_to_erd.py, the `entities_no_class`
    loop). */
module Entities {
  import opened Wrappers
  import opened Seqs
  import opened Text
  import opened Fields
  import opened Grouping

  const OBSOLETE_MARKER: string := "(Obsolete)"
  const BLOCK_END: string := "\n  }"

  /** The substring test on a missing label raises, which ends the run. */
  datatype RenderError = MissingLabel

  predicate LabelsPresent(fs: seq<FieldRecord>)
  {
    forall i :: 0 <= i < |fs| ==> fs[i].fieldLabel.Some?
  }

  predicate IsObsolete(f: FieldRecord)
  {
    f.fieldLabel.Some? && Contains(f.fieldLabel.value, OBSOLETE_MARKER)
  }

  /** Whether a field gets an attribute line. */
  predicate Renders(f: FieldRecord, keepAll: bool)
  {
    !IsObsolete(f) && (keepAll || |f.referenceTo| != 0)
  }

  /** How a type is written: a missing type comes out as Python's `None`. */
  function TypeText(t: Option<string>): string
  {
    match t
    case None => "None"
    case Some(s) => s
  }

  function BlockHeader(name: string): string
  {
    "  " + name + " {"
  }

  /** An attribute line: a newline, indentation, the type and the label. */
  function LineText(typeText: string, labelText: string): string
  {
    "\n    " + typeText + " " + labelText
  }

  /** The attribute line of a field: its type, then its sanitized label. */
  function AttributeLine(f: FieldRecord): string
    requires f.fieldLabel.Some?
  {
    LineText(TypeText(f.fieldType), Sanitize(f.fieldLabel.value))
  }

  /** The attribute lines of a list of fields, as the rendering loop adds them. */
  function AttributeLines(fs: seq<FieldRecord>, keepAll: bool): string
    requires LabelsPresent(fs)
  {
    if fs == [] then ""
    else
      var f := fs[|fs| - 1];
      AttributeLines(fs[..|fs| - 1], keepAll) + (if Renders(f, keepAll) then AttributeLine(f) else "")
  }

  /** The block of one object. */
  function Block(name: string, fs: seq<FieldRecord>, keepAll: bool): string
    requires LabelsPresent(fs)
  {
    BlockHeader(name) + AttributeLines(fs, keepAll) + BLOCK_END
  }

  /** The fields that get a line, in order. */
  function Survivors(fs: seq<FieldRecord>, keepAll: bool): (r: seq<FieldRecord>)
    ensures forall i :: 0 <= i < |r| ==> !IsObsolete(r[i])
    ensures !keepAll ==> forall i :: 0 <= i < |r| ==> r[i].referenceTo != []
  {
    Filter((f: FieldRecord) => Renders(f, keepAll), fs)
  }

  function Concat(parts: seq<string>): string
  {
    if parts == [] then "" else Concat(parts[..|parts| - 1]) + parts[|parts| - 1]
  }

  function AttributeLinesOf(fs: seq<FieldRecord>): (lines: seq<string>)
    requires LabelsPresent(fs)
    ensures |lines| == |fs|
  {
    seq(|fs|, i requires 0 <= i < |fs| => AttributeLine(fs[i]))
  }

  /** The in-place label overwrite: a field that gets a line has its label
      replaced by the sanitized label; every other field is left alone. */
  function Relabel(f: FieldRecord, keepAll: bool): FieldRecord
  {
    if Renders(f, keepAll) && f.fieldLabel.Some? then f.(fieldLabel := Some(Sanitize(f.fieldLabel.value))) else f
  }

  function RelabelAll(fs: seq<FieldRecord>, keepAll: bool): (r: seq<FieldRecord>)
    ensures |r| == |fs|
  {
    seq(|fs|, i requires 0 <= i < |fs| => Relabel(fs[i], keepAll))
  }

  /** A rendered object: its block, and its field list after the overwrite. */
  datatype Rendering = Rendering(block: string, fields: seq<FieldRecord>)

  /** The body of the rendering loop for one object. */
  method RenderEntity(name: string, fields: seq<FieldRecord>, keepAll: bool) returns (r: Result<Rendering, RenderError>)
    ensures r.Err? <==> !LabelsPresent(fields)
    ensures r.Ok? ==> r.value.block == Block(name, fields, keepAll)
    ensures r.Ok? ==> r.value.fields == RelabelAll(fields, keepAll)
  {
    var definition := BlockHeader(name);
    var updated := fields;
    for i := 0 to |fields|
      invariant LabelsPresent(fields[..i])
      invariant definition == BlockHeader(name) + AttributeLines(fields[..i], keepAll)
      invariant updated == RelabelAll(fields[..i], keepAll) + fields[i..]
    {
      var field := fields[i];
      if field.fieldLabel.None? {
        assert field in fields;
        return Err(MissingLabel);
      }
      RenderStep(fields, i, keepAll);
      var line, relabelled := RenderField(field, keepAll);
      updated := updated[i := relabelled];
      AppendAssociates(BlockHeader(name), AttributeLines(fields[..i], keepAll), line);
      definition := definition + line;
    }
    assert fields[..|fields|] == fields;
    definition := definition + BLOCK_END;
    return Ok(Rendering(definition, updated));
  }

  /** One turn of the innermost rendering loop: an obsolete field, or one
      without targets when not all fields are kept, is skipped; any other
      field has its label sanitized in place and gets its line. */
  method RenderField(field: FieldRecord, keepAll: bool) returns (line: string, relabelled: FieldRecord)
    requires field.fieldLabel.Some?
    ensures line == if Renders(field, keepAll) then AttributeLine(field) else ""
    ensures relabelled == Relabel(field, keepAll)
  {
    if Contains(field.fieldLabel.value, OBSOLETE_MARKER) {
      return "", field;
    }
    if !keepAll && |field.referenceTo| == 0 {
      return "", field;
    }
    var clean := Sanitize(field.fieldLabel.value);
    relabelled := field.(fieldLabel := Some(clean));
    line := LineText(TypeText(field.fieldType), clean);
  }

  /** Everything the rendering loop produces. */
  datatype Entities = Entities(blocks: seq<string>, members: map<string, seq<FieldRecord>>)

  /** The blocks of the objects `names`, in order. */
  function BlocksOf(names: seq<string>, members: map<string, seq<FieldRecord>>, keepAll: bool): seq<string>
    requires forall n :: n in names ==> n in members && LabelsPresent(members[n])
  {
    if names == [] then []
    else
      var n := names[|names| - 1];
      BlocksOf(names[..|names| - 1], members, keepAll) + [Block(n, members[n], keepAll)]
  }

  /** The dictionary after the lists of the objects `names` are relabelled. */
  function Relabelled(members: map<string, seq<FieldRecord>>, names: seq<string>, keepAll: bool): map<string, seq<FieldRecord>>
    requires forall n :: n in names ==> n in members
  {
    if names == [] then members
    else
      var n := names[|names| - 1];
      Relabelled(members, names[..|names| - 1], keepAll)[n := RelabelAll(members[n], keepAll)]
  }

  /** The rendering loop: one block per key of the dictionary, in key order;
      the dictionary's lists end up with their surviving labels sanitized. */
  method RenderEntities(g: Groups, keepAll: bool) returns (r: Result<Entities, RenderError>)
    requires WellFormed(g)
    ensures r.Err? <==> exists n :: n in g.names && !LabelsPresent(g.members[n])
    ensures r.Ok? ==> |r.value.blocks| == |g.names|
    ensures r.Ok? ==> forall i :: 0 <= i < |g.names| ==> r.value.blocks[i] == Block(g.names[i], g.members[g.names[i]], keepAll)
    ensures r.Ok? ==> r.value.members.Keys == g.members.Keys
    ensures r.Ok? ==> forall n :: n in g.members ==> r.value.members[n] == RelabelAll(g.members[n], keepAll)
  {
    var blocks: seq<string> := [];
    var members := g.members;
    for i := 0 to |g.names|
      invariant forall n :: n in g.names[..i] ==> LabelsPresent(g.members[n])
      invariant blocks == BlocksOf(g.names[..i], g.members, keepAll)
      invariant members == Relabelled(g.members, g.names[..i], keepAll)
    {
      var name := g.names[i];
      RenderEntitiesStep(g, i, keepAll);
      var rendered := RenderEntity(name, members[name], keepAll);
      if rendered.Err? {
        return Err(rendered.error);
      }
      blocks := blocks + [rendered.value.block];
      members := members[name := rendered.value.fields];
    }
    assert g.names[..|g.names|] == g.names;
    RenderedGroups(g, keepAll);
    r := Ok(Entities(blocks, members));
  }

  /** One turn of the rendering loop, on the specification side: the next
      key's list is still untouched, and the blocks and the dictionary grow
      by that key's block and relabelled list. */
  lemma RenderEntitiesStep(g: Groups, i: nat, keepAll: bool)
    requires WellFormed(g) && i < |g.names|
    requires forall n :: n in g.names[..i] ==> LabelsPresent(g.members[n])
    ensures g.names[i] in Relabelled(g.members, g.names[..i], keepAll)
    ensures Relabelled(g.members, g.names[..i], keepAll)[g.names[i]] == g.members[g.names[i]]
    ensures Relabelled(g.members, g.names[..i + 1], keepAll) ==
            Relabelled(g.members, g.names[..i], keepAll)[g.names[i] := RelabelAll(g.members[g.names[i]], keepAll)]
    ensures LabelsPresent(g.members[g.names[i]]) ==>
              (forall n :: n in g.names[..i + 1] ==> LabelsPresent(g.members[n])) &&
              BlocksOf(g.names[..i + 1], g.members, keepAll) ==
              BlocksOf(g.names[..i], g.members, keepAll) + [Block(g.names[i], g.members[g.names[i]], keepAll)]
  {
    var name := g.names[i];
    assert name !in g.names[..i];
    RelabelledAt(g.members, g.names[..i], keepAll, name);
    assert g.names[..i + 1][..i] == g.names[..i];
    assert forall n :: n in g.names[..i + 1] <==> n in g.names[..i] || n == name;
  }

  /** What the rendering loop leaves behind when every label is present:
      the block of each key in key order, and every list relabelled. */
  lemma RenderedGroups(g: Groups, keepAll: bool)
    requires WellFormed(g)
    requires forall n :: n in g.names ==> LabelsPresent(g.members[n])
    ensures |BlocksOf(g.names, g.members, keepAll)| == |g.names|
    ensures forall i :: 0 <= i < |g.names| ==>
              BlocksOf(g.names, g.members, keepAll)[i] == Block(g.names[i], g.members[g.names[i]], keepAll)
    ensures Relabelled(g.members, g.names, keepAll).Keys == g.members.Keys
    ensures forall n :: n in g.members ==> Relabelled(g.members, g.names, keepAll)[n] == RelabelAll(g.members[n], keepAll)
  {
    var members := Relabelled(g.members, g.names, keepAll);
    BlocksOfIndex(g.names, g.members, keepAll);
    forall n | n in g.members
      ensures n in members && members[n] == RelabelAll(g.members[n], keepAll)
    {
      RelabelledAt(g.members, g.names, keepAll, n);
    }
    forall n | n in members
      ensures n in g.members
    {
      RelabelledAt(g.members, g.names, keepAll, n);
    }
  }

  /** Relabelling the lists of `names` touches those lists and no others. */
  lemma {:induction false} RelabelledAt(members: map<string, seq<FieldRecord>>, names: seq<string>, keepAll: bool, n: string)
    requires forall m :: m in names ==> m in members
    ensures n in Relabelled(members, names, keepAll) <==> n in members
    ensures n in members ==>
              Relabelled(members, names, keepAll)[n] == if n in names then RelabelAll(members[n], keepAll) else members[n]
    decreases |names|
  {
    if names != [] {
      var init := names[..|names| - 1];
      assert forall m :: m in names <==> m in init || m == names[|names| - 1];
      RelabelledAt(members, init, keepAll, n);
    }
  }

  lemma {:induction false} BlocksOfIndex(names: seq<string>, members: map<string, seq<FieldRecord>>, keepAll: bool)
    requires forall n :: n in names ==> n in members && LabelsPresent(members[n])
    ensures |BlocksOf(names, members, keepAll)| == |names|
    ensures forall k :: 0 <= k < |names| ==> BlocksOf(names, members, keepAll)[k] == Block(names[k], members[names[k]], keepAll)
    decreases |names|
  {
    if names != [] {
      var init := names[..|names| - 1];
      BlocksOfIndex(init, members, keepAll);
      assert forall k :: 0 <= k < |init| ==> init[k] == names[k];
    }
  }

  // ---------------------------------------------------------------------
  // Properties of the rendering

  /** A field gets a line exactly when it is not obsolete and, unless all
      fields are kept, references some object. */
  lemma SurvivorsExactly(fs: seq<FieldRecord>, keepAll: bool, f: FieldRecord)
    ensures f in Survivors(fs, keepAll) <==> f in fs && !IsObsolete(f) && (keepAll || f.referenceTo != [])
  {
    FilterMembership((f: FieldRecord) => Renders(f, keepAll), fs, f);
  }

  /** One turn of the rendering loop, on the specification side. */
  lemma RenderStep(fs: seq<FieldRecord>, i: nat, keepAll: bool)
    requires i < |fs| && LabelsPresent(fs[..i]) && fs[i].fieldLabel.Some?
    ensures LabelsPresent(fs[..i + 1])
    ensures AttributeLines(fs[..i + 1], keepAll) ==
            AttributeLines(fs[..i], keepAll) + (if Renders(fs[i], keepAll) then AttributeLine(fs[i]) else "")
    ensures RelabelAll(fs[..i + 1], keepAll) + fs[i + 1..] ==
            (RelabelAll(fs[..i], keepAll) + fs[i..])[i := Relabel(fs[i], keepAll)]
  {
    assert fs[..i + 1][..i] == fs[..i];
    var after := RelabelAll(fs[..i + 1], keepAll) + fs[i + 1..];
    var before := (RelabelAll(fs[..i], keepAll) + fs[i..])[i := Relabel(fs[i], keepAll)];
    assert |after| == |before|;
    forall k | 0 <= k < |after|
      ensures after[k] == before[k]
    {
      if k <= i {
        assert after[k] == Relabel(fs[k], keepAll);
      } else {
        assert after[k] == fs[k];
      }
    }
  }

  lemma {:induction false} ConcatSnoc(parts: seq<string>, s: string)
    ensures Concat(parts + [s]) == Concat(parts) + s
  {
    assert (parts + [s])[..|parts|] == parts;
  }

  /** The attribute lines are the lines of the surviving fields, in order. */
  lemma {:induction false} AttributeLinesOfSurvivors(fs: seq<FieldRecord>, keepAll: bool)
    requires LabelsPresent(fs)
    ensures LabelsPresent(Survivors(fs, keepAll))
    ensures AttributeLines(fs, keepAll) == Concat(AttributeLinesOf(Survivors(fs, keepAll)))
    decreases |fs|
  {
    var r := Survivors(fs, keepAll);
    assert forall i :: 0 <= i < |r| ==> r[i] in fs;
    if fs != [] {
      var init, f := fs[..|fs| - 1], fs[|fs| - 1];
      assert forall g :: g in init ==> g in fs;
      AttributeLinesOfSurvivors(init, keepAll);
      var prior := Survivors(init, keepAll);
      if Renders(f, keepAll) {
        assert r == prior + [f];
        assert AttributeLinesOf(r) == AttributeLinesOf(prior) + [AttributeLine(f)];
        ConcatSnoc(AttributeLinesOf(prior), AttributeLine(f));
      }
    }
  }

  /** Each object yields one block: its header, one line per surviving
      field, and the closing brace; with no survivors the block is empty. */
  lemma BlockShape(name: string, fs: seq<FieldRecord>, keepAll: bool)
    requires LabelsPresent(fs)
    ensures LabelsPresent(Survivors(fs, keepAll))
    ensures Block(name, fs, keepAll) == BlockHeader(name) + Concat(AttributeLinesOf(Survivors(fs, keepAll))) + BLOCK_END
    ensures Survivors(fs, keepAll) == [] ==> Block(name, fs, keepAll) == "  " + name + " {\n  }"
  {
    AttributeLinesOfSurvivors(fs, keepAll);
  }
}
