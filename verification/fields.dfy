/** The field record built from one field descriptor file. The XML parse
    itself is outside the model: its results (the texts of the label, type
    and referenceTo elements, `None` for an absent element) are the input. */
module Fields {
  import opened Wrappers
  import opened Seqs
  import opened Text
  import opened Paths

  /** What the XML parse of a field file yields, with the file's path. */
  datatype FieldXml = FieldXml(path: string, labelText: Option<string>, typeText: Option<string>, referenceTexts: seq<string>)

  /** A parsed field: its label (spaces removed), its type tag, the objects it
      references and the object that owns it. */
  datatype FieldRecord = FieldRecord(fieldLabel: Option<string>, fieldType: Option<string>, referenceTo: seq<string>, objectName: string)

  /** The record of one field file. */
  function ParseField(x: FieldXml): (f: FieldRecord)
    ensures f.fieldLabel.None? <==> x.labelText.None?
    ensures f.fieldLabel.Some? ==> ' ' !in f.fieldLabel.value && IsSubseq(f.fieldLabel.value, x.labelText.value)
    ensures f.fieldType == x.typeText
    ensures |f.referenceTo| == |x.referenceTexts|
  {
    FieldRecord(
      if x.labelText.None? then None else Some(RemoveSpaces(x.labelText.value)),
      x.typeText,
      seq(|x.referenceTexts|, i requires 0 <= i < |x.referenceTexts| => StripCustom(x.referenceTexts[i])),
      OwnerName(x.path))
  }

  /** The records of all field files, in the order the files were found. */
  function ParseFields(xs: seq<FieldXml>): (fs: seq<FieldRecord>)
    ensures |fs| == |xs|
    ensures forall i :: 0 <= i < |xs| ==> (fs[i].fieldLabel.None? <==> xs[i].labelText.None?)
  {
    seq(|xs|, i requires 0 <= i < |xs| => ParseField(xs[i]))
  }

  /** A field file at `base/obj/dir/file`, or at the relative `obj/dir/file`,
      is owned by `obj` without its marker, and a target written `Name__c`
      becomes `Name`. */
  lemma ParseFieldOfLayout(x: FieldXml, base: string, obj: string, dir: string, file: string)
    requires IsComponent(obj) && IsComponent(dir) && '/' !in file
    requires x.path == base + "/" + obj + "/" + dir + "/" + file || x.path == obj + "/" + dir + "/" + file
    ensures ParseField(x).objectName == StripCustom(obj)
    ensures forall i :: 0 <= i < |x.referenceTexts| && !Contains(x.referenceTexts[i], CUSTOM_MARKER) ==>
              ParseField(x).referenceTo[i] == x.referenceTexts[i]
    ensures forall t :: t + CUSTOM_MARKER in x.referenceTexts && !Contains(t, CUSTOM_MARKER) ==>
              t in ParseField(x).referenceTo
  {
    if x.path == base + "/" + obj + "/" + dir + "/" + file {
      OwnerNameOfLayout(base, obj, dir, file);
    } else {
      OwnerNameOfRelativeLayout(obj, dir, file);
    }
    var f := ParseField(x);
    forall i | 0 <= i < |x.referenceTexts| && !Contains(x.referenceTexts[i], CUSTOM_MARKER)
      ensures f.referenceTo[i] == x.referenceTexts[i]
    {
      StripCustomNoMarker(x.referenceTexts[i]);
    }
    forall t | t + CUSTOM_MARKER in x.referenceTexts && !Contains(t, CUSTOM_MARKER)
      ensures t in f.referenceTo
    {
      var i :| 0 <= i < |x.referenceTexts| && x.referenceTexts[i] == t + CUSTOM_MARKER;
      StripCustomTrailingMarker(t);
      StripCustomNoMarker(t);
      assert f.referenceTo[i] == t;
    }
  }
}
