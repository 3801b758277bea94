/** Grouping field records by their owning object into an insertion-ordered
    dictionary (convert_to_erd.py, the `fields_by_object` loop). */
module Grouping {
  import opened Seqs
  import opened Fields

  /** An insertion-ordered dictionary from object name to the list of that
      object's fields: the keys in insertion order, and the entries. */
  datatype Groups = Groups(names: seq<string>, members: map<string, seq<FieldRecord>>)

  predicate Distinct(s: seq<string>)
  {
    forall i, j :: 0 <= i < j < |s| ==> s[i] != s[j]
  }

  /** The keys listed are exactly the keys of the dictionary, once each. */
  ghost predicate WellFormed(g: Groups)
  {
    (forall n :: n in g.members <==> n in g.names) && Distinct(g.names)
  }

  /** Some field of `fs` is owned by `name`. */
  predicate Owns(fs: seq<FieldRecord>, name: string)
  {
    exists i :: 0 <= i < |fs| && fs[i].objectName == name
  }

  /** The distinct owners of `fs`, in the order they are first met. */
  function FirstSeen(fs: seq<FieldRecord>): (names: seq<string>)
    ensures Distinct(names)
    ensures forall n :: n in names <==> Owns(fs, n)
    decreases |fs|
  {
    if fs == [] then []
    else
      var init := fs[..|fs| - 1];
      var prior := FirstSeen(init);
      var n := fs[|fs| - 1].objectName;
      assert forall m :: Owns(fs, m) <==> Owns(init, m) || m == n by {
        assert forall i :: 0 <= i < |init| ==> init[i] == fs[i];
      }
      if n in prior then prior else prior + [n]
  }

  /** The fields of `fs` owned by `name`, in input order. */
  function FieldsOf(fs: seq<FieldRecord>, name: string): (r: seq<FieldRecord>)
    ensures forall i :: 0 <= i < |r| ==> r[i].objectName == name
  {
    Filter((f: FieldRecord) => f.objectName == name, fs)
  }

  /** The dictionary the grouping loop builds. */
  function GroupFields(fs: seq<FieldRecord>): Groups
  {
    var names := FirstSeen(fs);
    Groups(names, map n | n in names :: FieldsOf(fs, n))
  }

  /** The groups' lists concatenated in key order: what a loop over
      `fields_by_object.values()` visits. */
  function Flatten(names: seq<string>, members: map<string, seq<FieldRecord>>): seq<FieldRecord>
    requires forall n :: n in names ==> n in members
  {
    if names == [] then []
    else Flatten(names[..|names| - 1], members) + members[names[|names| - 1]]
  }

  /** The same concatenation, with each group computed from the input. */
  function Regrouped(names: seq<string>, fs: seq<FieldRecord>): seq<FieldRecord>
  {
    if names == [] then []
    else Regrouped(names[..|names| - 1], fs) + FieldsOf(fs, names[|names| - 1])
  }

  /** The position where `name` first owns a field. */
  function FirstIndex(fs: seq<FieldRecord>, name: string): (k: nat)
    requires Owns(fs, name)
    ensures k < |fs| && fs[k].objectName == name
    ensures forall q :: 0 <= q < k ==> fs[q].objectName != name
    decreases |fs|
  {
    var init := fs[..|fs| - 1];
    if Owns(init, name) then FirstIndex(init, name)
    else
      assert forall q :: 0 <= q < |init| ==> fs[q] == init[q];
      |fs| - 1
  }

  /** The grouping loop: a key is inserted with an empty list the first time
      its object is met, then the field is appended to that key's list. */
  method GroupByObject(fields: seq<FieldRecord>) returns (g: Groups)
    ensures g == GroupFields(fields)
    ensures WellFormed(g)
  {
    var names: seq<string> := [];
    var members: map<string, seq<FieldRecord>> := map[];
    for i := 0 to |fields|
      invariant names == FirstSeen(fields[..i])
      invariant forall n :: n in members <==> n in names
      invariant forall n :: n in members ==> members[n] == FieldsOf(fields[..i], n)
    {
      var field := fields[i];
      assert fields[..i + 1][..i] == fields[..i];
      if field.objectName !in members {
        FieldsOfAbsent(fields[..i], field.objectName);
        names := names + [field.objectName];
        members := members[field.objectName := []];
      }
      members := members[field.objectName := members[field.objectName] + [field]];
      forall n | n in members
        ensures members[n] == FieldsOf(fields[..i + 1], n)
      {
        FieldsOfSnoc(fields[..i], field, n);
      }
    }
    assert fields[..|fields|] == fields;
    g := Groups(names, members);
    assert members == GroupFields(fields).members;
  }

  // ---------------------------------------------------------------------
  // Properties of the grouping

  lemma FieldsOfSnoc(fs: seq<FieldRecord>, f: FieldRecord, name: string)
    ensures FieldsOf(fs + [f], name) == FieldsOf(fs, name) + (if f.objectName == name then [f] else [])
  {
    assert (fs + [f])[..|fs|] == fs;
  }

  /** A group is empty exactly when its object owns no field. */
  lemma FieldsOfAbsent(fs: seq<FieldRecord>, name: string)
    ensures FieldsOf(fs, name) == [] <==> !Owns(fs, name)
  {
    if Owns(fs, name) {
      var i :| 0 <= i < |fs| && fs[i].objectName == name;
      FilterMembership((f: FieldRecord) => f.objectName == name, fs, fs[i]);
    }
    var r := FieldsOf(fs, name);
    if r != [] {
      var i :| 0 <= i < |fs| && fs[i] == r[0];
      assert fs[i].objectName == name;
    }
  }

  /** Every field lands in the group of its own object, and only there. */
  lemma GroupMembership(fs: seq<FieldRecord>, name: string, f: FieldRecord)
    ensures f in FieldsOf(fs, name) <==> f in fs && f.objectName == name
  {
    FilterMembership((f: FieldRecord) => f.objectName == name, fs, f);
  }

  /** Within a group, fields keep their input order. */
  lemma GroupKeepsOrder(fs: seq<FieldRecord>, name: string)
    ensures IsSubseq(FieldsOf(fs, name), fs)
  {
    FilterIsSubseq((f: FieldRecord) => f.objectName == name, fs);
  }

  lemma {:induction false} RegroupedSnoc(names: seq<string>, fs: seq<FieldRecord>, f: FieldRecord)
    requires Distinct(names)
    ensures multiset(Regrouped(names, fs + [f])) ==
            multiset(Regrouped(names, fs)) + (if f.objectName in names then multiset{f} else multiset{})
    decreases |names|
  {
    if names != [] {
      var init, n := names[..|names| - 1], names[|names| - 1];
      assert names == init + [n];
      assert n !in init;
      RegroupedSnoc(init, fs, f);
      FieldsOfSnoc(fs, f, n);
    }
  }

  /** Grouping is total: concatenating the groups in key order gives back
      every input field exactly as often as it occurs. */
  lemma {:induction false} GroupingIsPermutation(fs: seq<FieldRecord>)
    ensures multiset(Regrouped(FirstSeen(fs), fs)) == multiset(fs)
    decreases |fs|
  {
    if fs != [] {
      var p, f := fs[..|fs| - 1], fs[|fs| - 1];
      assert fs == p + [f];
      var prior := FirstSeen(p);
      GroupingIsPermutation(p);
      RegroupedSnoc(prior, p, f);
      if f.objectName in prior {
        assert FirstSeen(fs) == prior;
      } else {
        var names := prior + [f.objectName];
        assert FirstSeen(fs) == names;
        assert names[..|names| - 1] == prior;
        FieldsOfAbsent(p, f.objectName);
        FieldsOfSnoc(p, f, f.objectName);
        assert FieldsOf(fs, f.objectName) == [f];
        assert Regrouped(names, fs) == Regrouped(prior, fs) + [f];
      }
    }
  }

  lemma FirstIndexSnoc(fs: seq<FieldRecord>, f: FieldRecord, name: string)
    requires Owns(fs, name)
    ensures Owns(fs + [f], name) && FirstIndex(fs + [f], name) == FirstIndex(fs, name)
  {
    var i :| 0 <= i < |fs| && fs[i].objectName == name;
    assert (fs + [f])[i] == fs[i];
    assert (fs + [f])[..|fs|] == fs;
  }

  /** Keys appear in first-seen order: an earlier key's object owns a field
      before any field of a later key's object. */
  lemma {:induction false} GroupsInFirstSeenOrder(fs: seq<FieldRecord>)
    ensures forall i, j :: 0 <= i < j < |FirstSeen(fs)| ==>
              FirstIndex(fs, FirstSeen(fs)[i]) < FirstIndex(fs, FirstSeen(fs)[j])
    decreases |fs|
  {
    if fs != [] {
      var p, f := fs[..|fs| - 1], fs[|fs| - 1];
      assert fs == p + [f];
      var prior := FirstSeen(p);
      var names := FirstSeen(fs);
      GroupsInFirstSeenOrder(p);
      forall k | 0 <= k < |prior|
        ensures FirstIndex(fs, prior[k]) == FirstIndex(p, prior[k])
      {
        assert prior[k] in prior;
        FirstIndexSnoc(p, f, prior[k]);
      }
      if f.objectName !in prior {
        assert names == prior + [f.objectName];
        assert !Owns(p, f.objectName);
        assert FirstIndex(fs, f.objectName) == |p|;
      }
    }
  }

  /** The loop over the dictionary's values visits the regrouped input. */
  lemma {:induction false} FlattenGroupFields(names: seq<string>, fs: seq<FieldRecord>)
    requires forall n :: n in names ==> n in FirstSeen(fs)
    ensures Flatten(names, GroupFields(fs).members) == Regrouped(names, fs)
    decreases |names|
  {
    if names != [] {
      var init := names[..|names| - 1];
      assert forall n :: n in init ==> n in names;
      FlattenGroupFields(init, fs);
    }
  }
}
