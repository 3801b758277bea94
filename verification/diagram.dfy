/** Assembling the diagram, and the whole conversion from parsed field files
    to diagram text (convert_to_erd.py, from the parse of the field files
    to the final join). */
module Diagram {
  import opened Wrappers
  import opened Text
  import opened Fields
  import opened Grouping
  import opened Relationships
  import opened Entities

  const HEADER: string := "erDiagram\n"

  /** The header, then blocks and relationship lines joined by newlines. */
  function Assemble(blocks: seq<string>, relationships: seq<string>): string
  {
    HEADER + JoinLines(blocks + relationships)
  }

  /** The blocks of the given objects, each over that object's fields. */
  function Blocks(names: seq<string>, fs: seq<FieldRecord>, keepAll: bool): (blocks: seq<string>)
    requires LabelsPresent(fs)
    ensures |blocks| == |names|
  {
    seq(|names|, i requires 0 <= i < |names| => GroupLabelsPresent(fs, names[i]); Block(names[i], FieldsOf(fs, names[i]), keepAll))
  }

  /** The diagram the converter writes for these fields, or the error that
      stops it. */
  function ErDiagram(fs: seq<FieldRecord>, keepAll: bool): Result<string, RenderError>
  {
    if !LabelsPresent(fs) then Err(MissingLabel)
    else
      var names := FirstSeen(fs);
      Ok(Assemble(Blocks(names, fs, keepAll), RenderEdges(EdgesOf(Regrouped(names, fs)))))
  }

  /** The converter after the file walk: parse every field file, group,
      infer relationships, render entities, assemble. */
  method ConvertToErd(inputs: seq<FieldXml>, keepAll: bool) returns (r: Result<string, RenderError>)
    ensures r == ErDiagram(ParseFields(inputs), keepAll)
  {
    var fields := ParseFields(inputs);
    var groups := GroupByObject(fields);
    var relationships := InferRelationships(groups);
    FlattenGroupFields(groups.names, fields);
    var entities := RenderEntities(groups, keepAll);
    GroupsFailExactly(fields);
    if entities.Err? {
      r := Err(MissingLabel);
      assert r == ErDiagram(fields, keepAll);
      return;
    }
    GroupsBlocks(fields, keepAll, entities.value.blocks);
    r := Ok(Assemble(entities.value.blocks, relationships));
    assert r == ErDiagram(fields, keepAll);
  }

  // ---------------------------------------------------------------------
  // Properties of the assembly and of the whole conversion

  /** An object's list has every label when the input has every label. */
  lemma GroupLabelsPresent(fs: seq<FieldRecord>, name: string)
    requires LabelsPresent(fs)
    ensures LabelsPresent(FieldsOf(fs, name))
  {
  }

  /** Some group has a field without a label exactly when some field has none. */
  lemma GroupsFailExactly(fs: seq<FieldRecord>)
    ensures var g := GroupFields(fs);
            (exists n :: n in g.names && !LabelsPresent(g.members[n])) <==> !LabelsPresent(fs)
  {
    var g := GroupFields(fs);
    if LabelsPresent(fs) {
      forall n | n in g.names
        ensures LabelsPresent(g.members[n])
      {
        GroupLabelsPresent(fs, n);
      }
    } else {
      var f :| f in fs && f.fieldLabel.None?;
      GroupMembership(fs, f.objectName, f);
      assert f.objectName in g.names;
      assert f in g.members[f.objectName];
    }
  }

  /** The blocks rendered from the grouped fields, in key order, are the
      blocks of the objects in first-seen order. */
  lemma GroupsBlocks(fs: seq<FieldRecord>, keepAll: bool, blocks: seq<string>)
    requires LabelsPresent(fs)
    requires |blocks| == |FirstSeen(fs)|
    requires forall i :: 0 <= i < |blocks| ==>
               blocks[i] == Block(FirstSeen(fs)[i], GroupFields(fs).members[FirstSeen(fs)[i]], keepAll)
    ensures blocks == Blocks(FirstSeen(fs), fs, keepAll)
  {
  }

  /** The output is the header, the blocks joined by newlines, one more
      newline when there are both blocks and relationship lines, and the
      relationship lines joined by newlines. */
  lemma AssembleParts(blocks: seq<string>, relationships: seq<string>)
    ensures Assemble(blocks, relationships) ==
            HEADER + JoinLines(blocks) + (if blocks != [] && relationships != [] then "\n" else "") + JoinLines(relationships)
  {
    if blocks == [] {
      assert blocks + relationships == relationships;
    } else if relationships == [] {
      assert blocks + relationships == blocks;
    } else {
      JoinLinesAppend(blocks, relationships);
    }
  }

  /** With no field files the output is the header alone, trailing newline included. */
  lemma NoFieldsGivesHeaderOnly(keepAll: bool)
    ensures ErDiagram([], keepAll) == Ok("erDiagram\n")
  {
    assert FirstSeen([]) == [];
    assert Blocks([], [], keepAll) == [];
    assert RenderEdges(EdgesOf(Regrouped([], []))) == [];
    assert ErDiagram([], keepAll) == Ok(Assemble([], []));
    assert JoinLines([] + []) == "";
    assert HEADER + "" == "erDiagram\n";
  }

  /** The conversion fails exactly when some field has no label, whatever
      the flag; otherwise it yields one block per owning object and one
      relationship line per target of a reference field. */
  lemma ErDiagramShape(fs: seq<FieldRecord>, keepAll: bool)
    ensures ErDiagram(fs, keepAll).Err? <==> exists i :: 0 <= i < |fs| && fs[i].fieldLabel.None?
    ensures LabelsPresent(fs) ==>
              var names := FirstSeen(fs);
              var lines := RenderEdges(EdgesOf(Regrouped(names, fs)));
              ErDiagram(fs, keepAll) == Ok(Assemble(Blocks(names, fs, keepAll), lines)) &&
              |Blocks(names, fs, keepAll)| == |names| &&
              |lines| == ReferenceCount(fs)
  {
    if !LabelsPresent(fs) {
      var f :| f in fs && f.fieldLabel.None?;
      var i :| 0 <= i < |fs| && fs[i] == f;
    }
    GroupedEdges(fs);
  }
}
