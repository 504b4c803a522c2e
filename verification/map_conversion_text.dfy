/** `extract_ifc_map_conversion`: the first `IFCMAPCONVERSION(#n,#m,a,b,c,` in the
    text of an IFC file, of which the first two free fields (Eastings and Northings)
    are returned. The regular expression is modelled as a hand-written scanner and
    proved equal to a declarative description of what the expression matches. */
module MapConversionText {
  import opened Wrappers
  import opened Strings

  const Keyword: string := "IFCMAPCONVERSION(#"

  /** What the lazy `(.*?)` group between two commas can hold: `.` takes anything but
      a line break, and a lazy group stops at the first comma. */
  predicate InField(c: char) {
    c != ',' && c != '\n'
  }

  /** The pieces of one match: the two entity references (digits only) and the three
      free fields. */
  datatype Match = Match(ref1: string, ref2: string, field1: string, field2: string, field3: string)

  predicate WellFormed(mt: Match) {
    && |mt.ref1| > 0 && (forall i :: 0 <= i < |mt.ref1| ==> IsDigit(mt.ref1[i]))
    && |mt.ref2| > 0 && (forall i :: 0 <= i < |mt.ref2| ==> IsDigit(mt.ref2[i]))
    && (forall i :: 0 <= i < |mt.field1| ==> InField(mt.field1[i]))
    && (forall i :: 0 <= i < |mt.field2| ==> InField(mt.field2[i]))
    && (forall i :: 0 <= i < |mt.field3| ==> InField(mt.field3[i]))
  }

  /** The matched text followed by `tail`. */
  function Spell(mt: Match, tail: string): string {
    Keyword + (mt.ref1 + (",#" + (mt.ref2 + ("," + (mt.field1 + ("," + (mt.field2 + ("," + (mt.field3 + ("," + tail))))))))))
  }

  function MatchLength(mt: Match): nat {
    |Keyword| + |mt.ref1| + 2 + |mt.ref2| + 1 + |mt.field1| + 1 + |mt.field2| + 1 + |mt.field3| + 1
  }

  /** The declarative reading of the pattern: `u` is the text of a well-formed match
      followed by `tail`. */
  predicate MatchesAt(u: string, mt: Match, tail: string) {
    WellFormed(mt) && u == Spell(mt, tail)
  }

  // ----- the scanner -----

  /** A maximal run of accepted characters followed by `sep`: the run and what
      follows the separator. */
  function Token(accept: char -> bool, u: string, sep: string): (r: Option<(string, string)>)
    ensures r.Some? ==> u == r.value.0 + (sep + r.value.1)
    ensures r.Some? ==> forall i :: 0 <= i < |r.value.0| ==> accept(r.value.0[i])
  {
    var n := Run(accept, u);
    if sep <= u[n..] then
      assert u == u[..n] + (sep + u[n + |sep|..]) by {
        assert u[n..] == sep + u[n + |sep|..];
      }
      Some((u[..n], u[n + |sep|..]))
    else None
  }

  /** A run of accepted characters followed by a separator that starts with a
      rejected character is exactly what `Token` reads. */
  lemma TokenReads(accept: char -> bool, tok: string, sep: string, rest: string)
    requires forall i :: 0 <= i < |tok| ==> accept(tok[i])
    requires |sep| > 0 && !accept(sep[0])
    ensures Token(accept, tok + (sep + rest), sep) == Some((tok, rest))
  {
    var u := tok + (sep + rest);
    var n := Run(accept, u);
    assert u[|tok|] == sep[0];
    assert forall i :: 0 <= i < |tok| ==> u[i] == tok[i];
    assert n == |tok|;
    assert u[n..] == sep + rest;
    assert u[..n] == tok;
    assert u[n + |sep|..] == rest;
  }

  /** The two entity references `#n,#m,` after the keyword. */
  function References(u: string): (r: Option<(string, string, string)>)
    ensures r.Some? ==> u == r.value.0 + (",#" + (r.value.1 + ("," + r.value.2)))
    ensures r.Some? ==> |r.value.0| > 0 && forall i :: 0 <= i < |r.value.0| ==> IsDigit(r.value.0[i])
    ensures r.Some? ==> |r.value.1| > 0 && forall i :: 0 <= i < |r.value.1| ==> IsDigit(r.value.1[i])
  {
    var t1 := Token(IsDigit, u, ",#");
    if t1.None? || |t1.value.0| == 0 then None
    else
      var t2 := Token(IsDigit, t1.value.1, ",");
      if t2.None? || |t2.value.0| == 0 then None
      else Some((t1.value.0, t2.value.0, t2.value.1))
  }

  /** The three lazy groups, each closed by a comma. */
  function Fields(u: string): (r: Option<(string, string, string, string)>)
    ensures r.Some? ==> u == r.value.0 + ("," + (r.value.1 + ("," + (r.value.2 + ("," + r.value.3)))))
    ensures r.Some? ==> forall i :: 0 <= i < |r.value.0| ==> InField(r.value.0[i])
    ensures r.Some? ==> forall i :: 0 <= i < |r.value.1| ==> InField(r.value.1[i])
    ensures r.Some? ==> forall i :: 0 <= i < |r.value.2| ==> InField(r.value.2[i])
  {
    var f1 := Token(InField, u, ",");
    if f1.None? then None
    else
      var f2 := Token(InField, f1.value.1, ",");
      if f2.None? then None
      else
        var f3 := Token(InField, f2.value.1, ",");
        if f3.None? then None
        else Some((f1.value.0, f2.value.0, f3.value.0, f3.value.1))
  }

  /** The scanner at the start of `u`: the match and the text after it. */
  function ScanAt(u: string): (r: Option<(Match, string)>)
    ensures r.Some? ==> MatchesAt(u, r.value.0, r.value.1)
  {
    if !(Keyword <= u) then None
    else
      var refs := References(u[|Keyword|..]);
      if refs.None? then None
      else
        var fields := Fields(refs.value.2);
        if fields.None? then None
        else
          ScanAtMatches(u, refs.value, fields.value);
          Some((Match(refs.value.0, refs.value.1, fields.value.0, fields.value.1, fields.value.2), fields.value.3))
  }

  /** The keyword, the references and the fields the scanner read spell a match. */
  lemma ScanAtMatches(u: string, refs: (string, string, string), fields: (string, string, string, string))
    requires Keyword <= u
    requires u[|Keyword|..] == refs.0 + (",#" + (refs.1 + ("," + refs.2)))
    requires |refs.0| > 0 && forall i :: 0 <= i < |refs.0| ==> IsDigit(refs.0[i])
    requires |refs.1| > 0 && forall i :: 0 <= i < |refs.1| ==> IsDigit(refs.1[i])
    requires refs.2 == fields.0 + ("," + (fields.1 + ("," + (fields.2 + ("," + fields.3)))))
    requires forall i :: 0 <= i < |fields.0| ==> InField(fields.0[i])
    requires forall i :: 0 <= i < |fields.1| ==> InField(fields.1[i])
    requires forall i :: 0 <= i < |fields.2| ==> InField(fields.2[i])
    ensures MatchesAt(u, Match(refs.0, refs.1, fields.0, fields.1, fields.2), fields.3)
  {
    assert u == Keyword + u[|Keyword|..];
  }

  lemma ReferencesRead(ref1: string, ref2: string, rest: string)
    requires |ref1| > 0 && forall i :: 0 <= i < |ref1| ==> IsDigit(ref1[i])
    requires |ref2| > 0 && forall i :: 0 <= i < |ref2| ==> IsDigit(ref2[i])
    ensures References(ref1 + (",#" + (ref2 + ("," + rest)))) == Some((ref1, ref2, rest))
  {
    TokenReads(IsDigit, ref1, ",#", ref2 + ("," + rest));
    TokenReads(IsDigit, ref2, ",", rest);
  }

  lemma FieldsRead(f1: string, f2: string, f3: string, tail: string)
    requires forall i :: 0 <= i < |f1| ==> InField(f1[i])
    requires forall i :: 0 <= i < |f2| ==> InField(f2[i])
    requires forall i :: 0 <= i < |f3| ==> InField(f3[i])
    ensures Fields(f1 + ("," + (f2 + ("," + (f3 + ("," + tail)))))) == Some((f1, f2, f3, tail))
  {
    TokenReads(InField, f1, ",", f2 + ("," + (f3 + ("," + tail))));
    TokenReads(InField, f2, ",", f3 + ("," + tail));
    TokenReads(InField, f3, ",", tail);
  }

  /** The scanner finds every match the declarative reading admits, and it is the
      only one: a text starts with at most one match. */
  lemma ScanAtComplete(u: string, mt: Match, tail: string)
    requires MatchesAt(u, mt, tail)
    ensures ScanAt(u) == Some((mt, tail))
  {
    var rest := mt.field1 + ("," + (mt.field2 + ("," + (mt.field3 + ("," + tail)))));
    var r0 := mt.ref1 + (",#" + (mt.ref2 + ("," + rest)));
    assert u == Keyword + r0;
    assert u[|Keyword|..] == r0;
    ReferencesRead(mt.ref1, mt.ref2, rest);
    FieldsRead(mt.field1, mt.field2, mt.field3, tail);
  }

  // ----- re.search -----

  /** `re.search`: the leftmost position where the scanner matches. */
  function Search(s: string): (r: Option<nat>)
    ensures r.Some? ==> r.value <= |s| && ScanAt(s[r.value..]).Some?
    ensures r.Some? ==> forall q :: 0 <= q < r.value ==> ScanAt(s[q..]).None?
    ensures r.None? ==> forall q :: 0 <= q <= |s| ==> ScanAt(s[q..]).None?
  {
    Leftmost(u => ScanAt(u).Some?, s, 0)
  }

  /** `extract_ifc_map_conversion`: the first two free fields of the first match. */
  function Extract(s: string): (r: Option<(string, string)>)
    ensures r.None? <==> forall q :: 0 <= q <= |s| ==> ScanAt(s[q..]).None?
    ensures r.Some? ==> forall i :: 0 <= i < |r.value.0| ==> InField(r.value.0[i])
    ensures r.Some? ==> forall i :: 0 <= i < |r.value.1| ==> InField(r.value.1[i])
  {
    match Search(s)
    case None => None
    case Some(p) =>
      var mt := ScanAt(s[p..]).value.0;
      Some((mt.field1, mt.field2))
  }

  /** The result comes from the leftmost occurrence of the pattern: a match at `p`
      with none earlier is the one returned. */
  lemma ExtractIsLeftmost(s: string, p: nat, mt: Match, tail: string)
    requires p <= |s| && MatchesAt(s[p..], mt, tail)
    requires forall q, mt', tail' :: 0 <= q < p ==> !MatchesAt(s[q..], mt', tail')
    ensures Extract(s) == Some((mt.field1, mt.field2))
  {
    ScanAtComplete(s[p..], mt, tail);
    var r := Search(s);
    var found := ScanAt(s[r.value..]).value;
    assert MatchesAt(s[r.value..], found.0, found.1);
    assert r.value == p;
  }

  /** Nothing is returned exactly when the pattern occurs nowhere in the text. */
  lemma ExtractNoneIff(s: string)
    ensures Extract(s).None? <==> forall q, mt, tail :: 0 <= q <= |s| ==> !MatchesAt(s[q..], mt, tail)
  {
    if Extract(s).None? {
      forall q, mt, tail | 0 <= q <= |s| && MatchesAt(s[q..], mt, tail)
        ensures false
      {
        ScanAtComplete(s[q..], mt, tail);
      }
    } else {
      var r := Search(s);
      var found := ScanAt(s[r.value..]).value;
      assert MatchesAt(s[r.value..], found.0, found.1);
    }
  }

  /** A concrete IFC line, `#7=IFCMAPCONVERSION(#1,#6,841.8,4318.3,0.,$);`: the
      Eastings and Northings come back as written. */
  lemma ExtractExample()
    ensures Extract("#7=" + Spell(Match("1", "6", "841.8", "4318.3", "0."), "$);")) == Some(("841.8", "4318.3"))
  {
    var mt := Match("1", "6", "841.8", "4318.3", "0.");
    var s := "#7=" + Spell(mt, "$);");
    assert s[3..] == Spell(mt, "$);");
    assert s[0] == '#';
    assert s[1] == '7';
    assert s[2] == '=';
    forall q, mt', tail' | 0 <= q < 3
      ensures !MatchesAt(s[q..], mt', tail')
    {
      assert s[q..][0] == s[q] != 'I';
      assert Spell(mt', tail')[0] == 'I';
    }
    ExtractIsLeftmost(s, 3, mt, "$);");
  }
}
