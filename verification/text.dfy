/** The string helpers of the converter: space removal and the `__c`
    replacement applied while a field file is read, the alphanumeric
    sanitizer applied while an entity is rendered, Python's `in`,
    `str.endswith` and `"\n".join`. Characters are Dafny `char`s. */
module Text {
  import opened Seqs

  /** Marker of a custom object or field name, removed wherever a name is read. */
  const CUSTOM_MARKER: string := "__c"

  /** `str.isalnum`, restricted to ASCII letters and digits. */
  predicate IsAlnum(c: char)
  {
    'a' <= c <= 'z' || 'A' <= c <= 'Z' || '0' <= c <= '9'
  }

  predicate IsNotSpace(c: char)
  {
    c != ' '
  }

  /** `s.replace(" ", "")`. */
  function RemoveSpaces(s: string): (r: string)
    ensures ' ' !in r
    ensures IsSubseq(r, s)
  {
    FilterIsSubseq(IsNotSpace, s);
    var r := Filter(IsNotSpace, s);
    assert forall i :: 0 <= i < |r| ==> r[i] != ' ';
    r
  }

  /** `''.join(ch for ch in s if ch.isalnum())`. */
  function Sanitize(s: string): (r: string)
    ensures forall i :: 0 <= i < |r| ==> IsAlnum(r[i])
    ensures IsSubseq(r, s)
  {
    FilterIsSubseq(IsAlnum, s);
    Filter(IsAlnum, s)
  }

  /** `s.startswith(t)`. */
  predicate StartsWith(s: string, t: string)
  {
    |t| <= |s| && s[..|t|] == t
  }

  /** `s.endswith(t)`. */
  predicate EndsWith(s: string, t: string)
  {
    |t| <= |s| && s[|s| - |t|..] == t
  }

  /** Python's substring test `t in s`. */
  predicate Contains(s: string, t: string)
    decreases |s|
  {
    StartsWith(s, t) || (s != [] && Contains(s[1..], t))
  }

  /** `s.replace("__c", "")`: every occurrence of the marker, found left to
      right without overlap, is deleted; the result may still contain the
      marker (see StripCustomCanLeaveMarker). */
  function StripCustom(s: string): (r: string)
    ensures |r| <= |s| && (|s| - |r|) % 3 == 0
    decreases |s|
  {
    if StartsWith(s, CUSTOM_MARKER) then StripCustom(s[3..])
    else if s == [] then []
    else [s[0]] + StripCustom(s[1..])
  }

  /** `"\n".join(xs)`. */
  function JoinLines(xs: seq<string>): string
  {
    if xs == [] then ""
    else if |xs| == 1 then xs[0]
    else JoinLines(xs[..|xs| - 1]) + "\n" + xs[|xs| - 1]
  }

  // ---------------------------------------------------------------------
  // Sanitizer and space removal

  lemma SanitizeIdempotent(s: string)
    ensures Sanitize(Sanitize(s)) == Sanitize(s)
  {
    FilterIdempotent(IsAlnum, s);
  }

  /** The sanitizer leaves a label alone exactly when it is already alphanumeric. */
  lemma SanitizeFixpoint(s: string)
    ensures Sanitize(s) == s <==> forall i :: 0 <= i < |s| ==> IsAlnum(s[i])
  {
    FilterIdentity(IsAlnum, s);
  }

  /** The two cleaning passes compose: removing spaces at parse time and then
      sanitizing at render time is the same as sanitizing alone. */
  lemma SanitizeAfterRemoveSpaces(s: string)
    ensures Sanitize(RemoveSpaces(s)) == Sanitize(s)
  {
    FilterAbsorb(IsNotSpace, IsAlnum, s);
  }

  // ---------------------------------------------------------------------
  // The `__c` replacement

  /** A trailing marker, as in a directory name `Account__c`, disappears
      without disturbing the rest: no occurrence can straddle the boundary. */
  lemma {:induction false} StripCustomTrailingMarker(s: string)
    ensures StripCustom(s + CUSTOM_MARKER) == StripCustom(s)
    decreases |s|
  {
    var t := s + CUSTOM_MARKER;
    if s == [] {
      assert t == CUSTOM_MARKER;
      assert t[3..] == [];
    } else if StartsWith(s, CUSTOM_MARKER) {
      assert StartsWith(t, CUSTOM_MARKER) && t[3..] == s[3..] + CUSTOM_MARKER;
      StripCustomTrailingMarker(s[3..]);
    } else {
      if |s| < 3 {
        assert t[2] == '_';
      } else {
        assert t[..3] == s[..3];
      }
      assert !StartsWith(t, CUSTOM_MARKER);
      assert t[0] == s[0] && t[1..] == s[1..] + CUSTOM_MARKER;
      StripCustomTrailingMarker(s[1..]);
    }
  }

  /** A name without the marker is left unchanged. */
  lemma {:induction false} StripCustomNoMarker(s: string)
    requires !Contains(s, CUSTOM_MARKER)
    ensures StripCustom(s) == s
    decreases |s|
  {
    if s != [] {
      StripCustomNoMarker(s[1..]);
      assert s == [s[0]] + s[1..];
    }
  }

  /** Replacement is not a suffix strip: the result can still hold the marker. */
  lemma StripCustomCanLeaveMarker()
    ensures StripCustom("____cc") == "__c"
  {
    var s := "____cc";
    assert s[..3][2] != CUSTOM_MARKER[2] && s[1..] == "___cc";
    assert s[1..][..3][2] != CUSTOM_MARKER[2] && s[2..] == "__cc";
    assert StartsWith(s[2..], CUSTOM_MARKER) && s[2..][3..] == "c";
    assert !StartsWith("c", CUSTOM_MARKER) && "c"[1..] == [];
  }

  // ---------------------------------------------------------------------
  // Joining lines

  /** Joining a concatenation puts exactly one separator between the parts. */
  lemma {:induction false} JoinLinesAppend(xs: seq<string>, ys: seq<string>)
    requires xs != [] && ys != []
    ensures JoinLines(xs + ys) == JoinLines(xs) + "\n" + JoinLines(ys)
    decreases |ys|
  {
    var zs := xs + ys;
    var y := ys[|ys| - 1];
    if |ys| == 1 {
      assert zs[..|zs| - 1] == xs;
    } else {
      var init := ys[..|ys| - 1];
      JoinLinesAppend(xs, init);
      assert zs[..|zs| - 1] == xs + init;
      calc {
        JoinLines(zs);
        JoinLines(xs + init) + "\n" + y;
        (JoinLines(xs) + "\n" + JoinLines(init)) + "\n" + y;
        JoinLines(xs) + "\n" + (JoinLines(init) + "\n" + y);
        JoinLines(xs) + "\n" + JoinLines(ys);
      }
    }
  }
}
