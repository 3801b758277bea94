/** Relationship inference: one line per reference target of every
    master-detail or lookup field, directed from the referenced object to
    the owning object (convert_to_erd.py, the `relationships` loop). */
module Relationships {
  import opened Wrappers
  import opened Seqs
  import opened Fields
  import opened Grouping

  const MASTER_DETAIL: string := "MasterDetail"
  const LOOKUP: string := "Lookup"
  /** Exactly one parent, required: the notation of a master-detail field. */
  const REQUIRED_NOTATION: string := "||--}|"
  /** Zero or one parent, optional: the notation of a lookup field. */
  const OPTIONAL_NOTATION: string := "o|--o{"

  /** A relationship before it is written out: from the referenced object
      (`target`) to the object owning the field. */
  datatype Edge = Edge(target: string, notation: string, owner: string)

  predicate IsReference(f: FieldRecord)
  {
    f.fieldType == Some(MASTER_DETAIL) || f.fieldType == Some(LOOKUP)
  }

  /** The notation for a field's type; `None` for every type that is not a
      reference type, including a missing type. */
  function NotationFor(fieldType: Option<string>): Option<string>
  {
    if fieldType == Some(MASTER_DETAIL) then Some(REQUIRED_NOTATION)
    else if fieldType == Some(LOOKUP) then Some(OPTIONAL_NOTATION)
    else None
  }

  /** The text of one relationship line. */
  function EdgeLine(e: Edge): string
  {
    "  " + e.target + " " + e.notation + " " + e.owner + " : contains"
  }

  function RenderEdges(es: seq<Edge>): (lines: seq<string>)
    ensures |lines| == |es|
  {
    if es == [] then [] else RenderEdges(es[..|es| - 1]) + [EdgeLine(es[|es| - 1])]
  }

  /** The edges one field contributes: one per target, in target order, or
      none when the field is not a reference field. */
  function FieldEdges(f: FieldRecord): (es: seq<Edge>)
    ensures IsReference(f) ==> |es| == |f.referenceTo|
    ensures !IsReference(f) ==> es == []
  {
    match NotationFor(f.fieldType)
    case None => []
    case Some(notation) =>
      seq(|f.referenceTo|, i requires 0 <= i < |f.referenceTo| => Edge(f.referenceTo[i], notation, f.objectName))
  }

  /** The edges a sequence of fields contributes, field by field. */
  function EdgesOf(fs: seq<FieldRecord>): seq<Edge>
  {
    if fs == [] then [] else EdgesOf(fs[..|fs| - 1]) + FieldEdges(fs[|fs| - 1])
  }

  /** The number of targets over all reference fields. */
  function ReferenceCount(fs: seq<FieldRecord>): nat
  {
    if fs == [] then 0
    else
      var f := fs[|fs| - 1];
      ReferenceCount(fs[..|fs| - 1]) + (if IsReference(f) then |f.referenceTo| else 0)
  }

  /** The relationship loop: over the dictionary's lists in key order, over
      each list's fields, over each field's targets. */
  method InferRelationships(g: Groups) returns (relationships: seq<string>)
    requires forall n :: n in g.names ==> n in g.members
    ensures relationships == RenderEdges(EdgesOf(Flatten(g.names, g.members)))
  {
    relationships := [];
    for i := 0 to |g.names|
      invariant relationships == RenderEdges(EdgesOf(Flatten(g.names[..i], g.members)))
    {
      var fields := g.members[g.names[i]];
      var lines := ListRelationships(fields);
      ghost var done := Flatten(g.names[..i], g.members);
      assert g.names[..i + 1][..i] == g.names[..i];
      assert Flatten(g.names[..i + 1], g.members) == done + fields;
      EdgesOfAppend(done, fields);
      RenderEdgesAppend(EdgesOf(done), EdgesOf(fields));
      relationships := relationships + lines;
    }
    assert g.names[..|g.names|] == g.names;
  }

  /** The middle loop of the relationship loop: the lines of one object's fields. */
  method ListRelationships(fields: seq<FieldRecord>) returns (lines: seq<string>)
    ensures lines == RenderEdges(EdgesOf(fields))
  {
    lines := [];
    for j := 0 to |fields|
      invariant lines == RenderEdges(EdgesOf(fields[..j]))
    {
      var fieldLines := FieldRelationships(fields[j]);
      assert fields[..j + 1] == fields[..j] + [fields[j]];
      EdgesOfSnoc(fields[..j], fields[j]);
      RenderEdgesAppend(EdgesOf(fields[..j]), FieldEdges(fields[j]));
      lines := lines + fieldLines;
    }
    assert fields[..|fields|] == fields;
  }

  /** The innermost loop of the relationship loop: the lines of one field;
      a target of a field of any other type is skipped. */
  method FieldRelationships(field: FieldRecord) returns (lines: seq<string>)
    ensures lines == RenderEdges(FieldEdges(field))
  {
    lines := [];
    for k := 0 to |field.referenceTo|
      invariant lines == RenderEdges(FieldEdges(field)[..if IsReference(field) then k else 0])
    {
      var reference := field.referenceTo[k];
      var syntax;
      if field.fieldType == Some(MASTER_DETAIL) {
        syntax := REQUIRED_NOTATION;
      } else if field.fieldType == Some(LOOKUP) {
        syntax := OPTIONAL_NOTATION;
      } else {
        continue;
      }
      ghost var es := FieldEdges(field);
      assert es[..k + 1][..k] == es[..k] && es[k] == Edge(reference, syntax, field.objectName);
      lines := lines + [EdgeLine(Edge(reference, syntax, field.objectName))];
    }
    assert FieldEdges(field)[..|FieldEdges(field)|] == FieldEdges(field);
  }

  // ---------------------------------------------------------------------
  // Properties of the inference

  lemma {:induction false} RenderEdgesAppend(a: seq<Edge>, b: seq<Edge>)
    ensures RenderEdges(a + b) == RenderEdges(a) + RenderEdges(b)
    decreases |b|
  {
    if b == [] {
      assert a + b == a;
    } else {
      var init := b[..|b| - 1];
      RenderEdgesAppend(a, init);
      assert (a + b)[..|a + b| - 1] == a + init;
    }
  }

  lemma EdgesOfSnoc(fs: seq<FieldRecord>, f: FieldRecord)
    ensures EdgesOf(fs + [f]) == EdgesOf(fs) + FieldEdges(f)
  {
    assert (fs + [f])[..|fs|] == fs;
  }

  lemma {:induction false} EdgesOfAppend(a: seq<FieldRecord>, b: seq<FieldRecord>)
    ensures EdgesOf(a + b) == EdgesOf(a) + EdgesOf(b)
    decreases |b|
  {
    if b == [] {
      assert a + b == a;
    } else {
      var init, x := b[..|b| - 1], b[|b| - 1];
      assert b == init + [x];
      assert a + b == (a + init) + [x];
      EdgesOfSnoc(a + init, x);
      EdgesOfSnoc(init, x);
      EdgesOfAppend(a, init);
      AppendAssociates(EdgesOf(a), EdgesOf(init), FieldEdges(x));
    }
  }

  /** One edge per target of every reference field, and no others: no
      deduplication, nothing from other types or from fields without targets. */
  lemma {:induction false} EdgeCount(fs: seq<FieldRecord>)
    ensures |EdgesOf(fs)| == ReferenceCount(fs)
    decreases |fs|
  {
    if fs != [] {
      EdgeCount(fs[..|fs| - 1]);
    }
  }

  /** The edge for target `j` of a reference field `f`. */
  function TargetEdge(f: FieldRecord, j: nat): Edge
    requires IsReference(f) && j < |f.referenceTo|
  {
    Edge(f.referenceTo[j], NotationFor(f.fieldType).value, f.objectName)
  }

  /** Every edge comes from a target of a reference field, names that target
      first and the owner second, and carries the notation of the field's
      type; conversely every such target yields its edge. */
  lemma {:induction false} EdgeOrigin(fs: seq<FieldRecord>)
    ensures forall e :: e in EdgesOf(fs) <==>
              exists i, j :: 0 <= i < |fs| && IsReference(fs[i]) && 0 <= j < |fs[i].referenceTo| && e == TargetEdge(fs[i], j)
    decreases |fs|
  {
    if fs != [] {
      var init, f := fs[..|fs| - 1], fs[|fs| - 1];
      EdgeOrigin(init);
      assert forall i :: 0 <= i < |init| ==> init[i] == fs[i];
      var own := FieldEdges(f);
      forall e | e in own
        ensures exists j :: 0 <= j < |f.referenceTo| && IsReference(f) && e == TargetEdge(f, j)
      {
        var j :| 0 <= j < |own| && own[j] == e;
        assert IsReference(f);
        assert own[j] == TargetEdge(f, j);
      }
      forall j | 0 <= j < |f.referenceTo| && IsReference(f)
        ensures TargetEdge(f, j) in own
      {
        assert own[j] == TargetEdge(f, j);
      }
    }
  }

  lemma {:induction false} RenderEdgesIndex(es: seq<Edge>, k: nat)
    requires k < |es|
    ensures RenderEdges(es)[k] == EdgeLine(es[k])
    decreases |es|
  {
    if k < |es| - 1 {
      RenderEdgesIndex(es[..|es| - 1], k);
    }
  }

  /** The line for a target of a master-detail field names the target, the
      required notation and the owner, in that order; for a lookup field,
      the optional notation. */
  lemma TargetLine(f: FieldRecord, j: nat)
    requires IsReference(f) && j < |f.referenceTo|
    ensures f.fieldType == Some(MASTER_DETAIL) ==>
              EdgeLine(TargetEdge(f, j)) == "  " + f.referenceTo[j] + " ||--}| " + f.objectName + " : contains"
    ensures f.fieldType == Some(LOOKUP) ==>
              EdgeLine(TargetEdge(f, j)) == "  " + f.referenceTo[j] + " o|--o{ " + f.objectName + " : contains"
  {
  }

  /** Every relationship line is the line of some target of some reference
      field, and every such target has its line. */
  lemma RelationshipLines(fs: seq<FieldRecord>)
    ensures forall line :: line in RenderEdges(EdgesOf(fs)) <==>
              exists i, j :: 0 <= i < |fs| && IsReference(fs[i]) && 0 <= j < |fs[i].referenceTo| && line == EdgeLine(TargetEdge(fs[i], j))
  {
    var es := EdgesOf(fs);
    var lines := RenderEdges(es);
    EdgeOrigin(fs);
    forall line | line in lines
      ensures exists e :: e in es && line == EdgeLine(e)
    {
      var k :| 0 <= k < |lines| && lines[k] == line;
      RenderEdgesIndex(es, k);
      assert es[k] in es;
    }
    forall e | e in es
      ensures EdgeLine(e) in lines
    {
      var k :| 0 <= k < |es| && es[k] == e;
      RenderEdgesIndex(es, k);
    }
  }

  lemma MultisetCancel<T>(m: multiset<T>, n: multiset<T>, x: T)
    requires m + multiset{x} == n + multiset{x}
    ensures m == n
  {
    assert forall y :: m[y] == (m + multiset{x})[y] - (if y == x then 1 else 0);
    assert forall y :: n[y] == (n + multiset{x})[y] - (if y == x then 1 else 0);
  }

  /** Reordering the fields only reorders the edges. */
  lemma {:induction false} EdgesOfPermutation(a: seq<FieldRecord>, b: seq<FieldRecord>)
    requires multiset(a) == multiset(b)
    ensures multiset(EdgesOf(a)) == multiset(EdgesOf(b))
    decreases |a|
  {
    if a == [] {
      assert |b| == |multiset(b)| == 0;
    } else {
      var init, x := a[..|a| - 1], a[|a| - 1];
      assert a == init + [x];
      assert x in multiset(b);
      var j :| 0 <= j < |b| && b[j] == x;
      var left, right := b[..j], b[j + 1..];
      assert b == left + [x] + right;
      assert multiset(b) == multiset(left + right) + multiset{x};
      assert multiset(a) == multiset(init) + multiset{x};
      MultisetCancel(multiset(init), multiset(left + right), x);
      EdgesOfPermutation(init, left + right);
      EdgesOfAppend(left + [x], right);
      EdgesOfSnoc(left, x);
      EdgesOfAppend(left, right);
    }
  }

  /** Inferring over the grouped fields yields the same edges as inferring
      over the fields in input order, up to order, one per target. */
  lemma GroupedEdges(fs: seq<FieldRecord>)
    ensures multiset(EdgesOf(Regrouped(FirstSeen(fs), fs))) == multiset(EdgesOf(fs))
    ensures |EdgesOf(Regrouped(FirstSeen(fs), fs))| == ReferenceCount(fs)
  {
    GroupingIsPermutation(fs);
    EdgesOfPermutation(Regrouped(FirstSeen(fs), fs), fs);
    EdgeCount(fs);
    assert |multiset(EdgesOf(Regrouped(FirstSeen(fs), fs)))| == |multiset(EdgesOf(fs))|;
  }
}
