/** `jsonldToQuads` of `src/requesters/responseToLinkedData.ts`: every blank node of
    the quads `jsonld.toRDF` produced is replaced by a fresh one, so that quads from
    several sources can be combined. Fresh blank nodes come from the data factory's
    process-wide counter and are modelled by that counter's value. */
module BlankNodes {
  /** RDF/JS terms as `jsonld.toRDF` produces them. */
  datatype Term =
    | NamedNode(iri: string)
    | BlankNode(value: string)
    | Literal(lexical: string, datatypeIri: string, language: string)
    | DefaultGraph

  /** A quad; `subj`, `pred` and `obj` are its subject, predicate and object. */
  datatype Quad = Quad(subj: Term, pred: Term, obj: Term, graph: Term)

  /** A term of the output: an input term kept as it is, or a fresh blank node. */
  datatype OutTerm = Kept(term: Term) | Fresh(id: nat)

  /** `dataFactory.quad(s, p, o)`: no graph argument, so the default graph. */
  datatype OutQuad = OutQuad(subj: OutTerm, pred: OutTerm, obj: OutTerm, graph: Term)

  /** `termMap` and the factory's counter: the next fresh node is `Fresh(next)`. */
  datatype Renaming = Renaming(names: map<string, nat>, next: nat)

  /** The names handed out so far are all below the counter and pairwise different. */
  ghost predicate Valid(st: Renaming) {
    && (forall l :: l in st.names ==> st.names[l] < st.next)
    && (forall a, b :: a in st.names && b in st.names && a != b ==> st.names[a] != st.names[b])
  }

  /** `termMapper(term)`. */
  function MapTerm(st: Renaming, t: Term): (r: (OutTerm, Renaming))
    ensures !t.BlankNode? ==> r == (Kept(t), st)
    ensures t.BlankNode? && t.value == "" ==> r == (Fresh(st.next), st.(next := st.next + 1))
    ensures t.BlankNode? && t.value != "" && t.value in st.names ==> r == (Fresh(st.names[t.value]), st)
    ensures t.BlankNode? && t.value != "" && t.value !in st.names ==>
      r == (Fresh(st.next), Renaming(st.names[t.value := st.next], st.next + 1))
  {
    if !t.BlankNode? then (Kept(t), st)
    else if t.value == "" then (Fresh(st.next), st.(next := st.next + 1))
    else if t.value in st.names then (Fresh(st.names[t.value]), st)
    else (Fresh(st.next), Renaming(st.names[t.value := st.next], st.next + 1))
  }

  /** `termMapper` over a sequence of terms, left to right. */
  function MapTerms(st: Renaming, ts: seq<Term>): (r: (seq<OutTerm>, Renaming))
    ensures |r.0| == |ts|
    decreases |ts|
  {
    if |ts| == 0 then ([], st)
    else
      var (o, st1) := MapTerm(st, ts[0]);
      var (rest, fin) := MapTerms(st1, ts[1..]);
      ([o] + rest, fin)
  }

  function Terms(qs: seq<Quad>): (r: seq<Term>)
    ensures |r| == 3 * |qs|
    ensures forall i :: 0 <= i < |qs| ==>
      r[3 * i] == qs[i].subj && r[3 * i + 1] == qs[i].pred && r[3 * i + 2] == qs[i].obj
  {
    if |qs| == 0 then []
    else
      var rest := Terms(qs[1..]);
      assert forall i :: 1 <= i < |qs| ==> qs[i] == qs[1..][i - 1];
      [qs[0].subj, qs[0].pred, qs[0].obj] + rest
  }

  /** `rdfQuads.map(...)`: subject, predicate and object of each quad in turn. */
  function MapQuads(st: Renaming, qs: seq<Quad>): (r: (seq<OutQuad>, Renaming))
    ensures |r.0| == |qs|
    ensures forall i :: 0 <= i < |qs| ==> r.0[i].graph == DefaultGraph
    decreases |qs|
  {
    if |qs| == 0 then ([], st)
    else
      var (s, st1) := MapTerm(st, qs[0].subj);
      var (p, st2) := MapTerm(st1, qs[0].pred);
      var (o, st3) := MapTerm(st2, qs[0].obj);
      var (rest, fin) := MapQuads(st3, qs[1..]);
      ([OutQuad(s, p, o, DefaultGraph)] + rest, fin)
  }

  function OutTerms(qs: seq<OutQuad>): (r: seq<OutTerm>)
    ensures |r| == 3 * |qs|
  {
    if |qs| == 0 then [] else [qs[0].subj, qs[0].pred, qs[0].obj] + OutTerms(qs[1..])
  }

  /** Mapping the quads is mapping their terms in reading order. */
  lemma {:induction false} MapQuadsIsMapTerms(st: Renaming, qs: seq<Quad>)
    ensures OutTerms(MapQuads(st, qs).0) == MapTerms(st, Terms(qs)).0
    ensures MapQuads(st, qs).1 == MapTerms(st, Terms(qs)).1
    decreases |qs|
  {
    if |qs| > 0 {
      var q := qs[0];
      var s := MapTerm(st, q.subj).0;
      var st1 := MapTerm(st, q.subj).1;
      var p := MapTerm(st1, q.pred).0;
      var st2 := MapTerm(st1, q.pred).1;
      var o := MapTerm(st2, q.obj).0;
      var st3 := MapTerm(st2, q.obj).1;
      MapQuadsIsMapTerms(st3, qs[1..]);
      MapQuadsStep(st, qs);
      var out := MapQuads(st, qs).0;
      OutTermsStep(out);
      TermsStep(qs);
      MapThreeTerms(st, Terms(qs), Terms(qs[1..]));
      var tail := MapTerms(st3, Terms(qs[1..])).0;
      ThreeInFront(s, p, o, tail);
    }
  }

  /** Mapping the quads: the first quad's three terms in turn, then the rest. */
  lemma MapQuadsStep(st: Renaming, qs: seq<Quad>)
    requires |qs| > 0
    ensures var st1 := MapTerm(st, qs[0].subj).1;
      var st2 := MapTerm(st1, qs[0].pred).1;
      var st3 := MapTerm(st2, qs[0].obj).1;
      && |MapQuads(st, qs).0| > 0
      && MapQuads(st, qs).0[0]
        == OutQuad(MapTerm(st, qs[0].subj).0, MapTerm(st1, qs[0].pred).0, MapTerm(st2, qs[0].obj).0, DefaultGraph)
      && MapQuads(st, qs).0[1..] == MapQuads(st3, qs[1..]).0
      && MapQuads(st, qs).1 == MapQuads(st3, qs[1..]).1
  {
    var st1 := MapTerm(st, qs[0].subj).1;
    var st2 := MapTerm(st1, qs[0].pred).1;
    var st3 := MapTerm(st2, qs[0].obj).1;
    var head := OutQuad(MapTerm(st, qs[0].subj).0, MapTerm(st1, qs[0].pred).0, MapTerm(st2, qs[0].obj).0, DefaultGraph);
    assert MapQuads(st, qs).0 == [head] + MapQuads(st3, qs[1..]).0;
  }

  lemma ThreeInFront<T>(a: T, b: T, c: T, tail: seq<T>)
    ensures [a, b, c] + tail == [a] + ([b] + ([c] + tail))
  {
  }

  /** The output terms: those of the first quad, then those of the rest. */
  lemma OutTermsStep(out: seq<OutQuad>)
    requires |out| > 0
    ensures OutTerms(out) == [out[0].subj, out[0].pred, out[0].obj] + OutTerms(out[1..])
  {
  }

  /** The terms of the quads: those of the first quad, then those of the rest. */
  lemma TermsStep(qs: seq<Quad>)
    requires |qs| > 0
    ensures var ts := Terms(qs);
      && ts[0] == qs[0].subj && ts[1..][0] == qs[0].pred && ts[1..][1..][0] == qs[0].obj
      && ts[1..][1..][1..] == Terms(qs[1..])
  {
  }

  /** Mapping three leading terms, then the rest. */
  lemma MapThreeTerms(st: Renaming, ts: seq<Term>, rest: seq<Term>)
    requires |ts| >= 3 && ts[1..][1..][1..] == rest
    ensures var (s, st1) := MapTerm(st, ts[0]);
      var (p, st2) := MapTerm(st1, ts[1..][0]);
      var (o, st3) := MapTerm(st2, ts[1..][1..][0]);
      var (tail, fin) := MapTerms(st3, rest);
      MapTerms(st, ts) == ([s] + ([p] + ([o] + tail)), fin)
  {
    var (s, st1) := MapTerm(st, ts[0]);
    var (p, st2) := MapTerm(st1, ts[1..][0]);
    var (o, st3) := MapTerm(st2, ts[1..][1..][0]);
    var (tail, fin) := MapTerms(st3, rest);
    assert MapTerms(st2, ts[1..][1..]) == ([o] + tail, fin);
    assert MapTerms(st1, ts[1..]) == ([p] + ([o] + tail), fin);
  }

  /** `jsonldToQuads` after `jsonld.toRDF`: the counter stands at `counter`; the
      discarded `dataFactory.blankNode()` call uses one value; `termMap` starts empty. */
  function JsonldToQuads(counter: nat, qs: seq<Quad>): (r: seq<OutQuad>)
    ensures |r| == |qs|
    ensures forall i :: 0 <= i < |qs| ==> r[i].graph == DefaultGraph
  {
    MapQuads(Renaming(map[], counter + 1), qs).0
  }

  /** The renaming only grows: names handed out stay, new ones are fresh, and the
      state stays valid. */
  lemma {:induction false} MapTermsState(st: Renaming, ts: seq<Term>)
    requires Valid(st)
    ensures var fin := MapTerms(st, ts).1;
      && Valid(fin) && st.next <= fin.next
      && (forall l :: l in st.names ==> l in fin.names && fin.names[l] == st.names[l])
      && (forall l :: l in fin.names && l !in st.names ==> st.next <= fin.names[l])
    decreases |ts|
  {
    if |ts| > 0 {
      var st1 := MapTerm(st, ts[0]).1;
      assert Valid(st1);
      MapTermsState(st1, ts[1..]);
    }
  }

  /** The invariant of the renaming, stated for a run from a valid state:
      non-blank terms are kept, a labelled blank node becomes the node its label has
      in the final map, and an unlabelled one becomes a node no other output term is. */
  lemma MapTermsRenames(st: Renaming, ts: seq<Term>)
    requires Valid(st)
    ensures var (out, fin) := MapTerms(st, ts);
      && (forall k :: 0 <= k < |ts| && !ts[k].BlankNode? ==> out[k] == Kept(ts[k]))
      && (forall k :: 0 <= k < |ts| && ts[k].BlankNode? && ts[k].value != "" ==>
            ts[k].value in fin.names && out[k] == Fresh(fin.names[ts[k].value]))
      && (forall k :: 0 <= k < |ts| && ts[k].BlankNode? && ts[k].value == "" ==>
            out[k].Fresh? && st.next <= out[k].id < fin.next
            && (forall l :: l in fin.names ==> fin.names[l] != out[k].id)
            && (forall j :: 0 <= j < |ts| && j != k ==> out[j] != out[k]))
  {
    MapTermsKeeps(st, ts);
    MapTermsLabels(st, ts);
    MapTermsUnlabelled(st, ts);
  }

  /** Terms that are not blank nodes come out unchanged. */
  lemma {:induction false} MapTermsKeeps(st: Renaming, ts: seq<Term>)
    ensures var out := MapTerms(st, ts).0;
      forall k :: 0 <= k < |ts| && !ts[k].BlankNode? ==> out[k] == Kept(ts[k])
    decreases |ts|
  {
    if |ts| > 0 {
      var (o, st1) := MapTerm(st, ts[0]);
      MapTermsKeeps(st1, ts[1..]);
      var rest := MapTerms(st1, ts[1..]).0;
      assert MapTerms(st, ts).0 == [o] + rest;
      assert forall k :: 1 <= k < |ts| ==> ts[k] == ts[1..][k - 1];
    }
  }

  /** A labelled blank node becomes the node its label has in the final map. */
  lemma {:induction false} MapTermsLabels(st: Renaming, ts: seq<Term>)
    requires Valid(st)
    ensures var (out, fin) := MapTerms(st, ts);
      forall k :: 0 <= k < |ts| && ts[k].BlankNode? && ts[k].value != "" ==>
        ts[k].value in fin.names && out[k] == Fresh(fin.names[ts[k].value])
    decreases |ts|
  {
    if |ts| > 0 {
      var (o, st1) := MapTerm(st, ts[0]);
      assert Valid(st1);
      MapTermsLabels(st1, ts[1..]);
      MapTermsState(st1, ts[1..]);
      var rest := MapTerms(st1, ts[1..]).0;
      assert MapTerms(st, ts).0 == [o] + rest;
      assert forall k :: 1 <= k < |ts| ==> ts[k] == ts[1..][k - 1];
    }
  }

  /** An unlabelled blank node becomes a node of its own, taken from the counter's
      range for this run and given to no label. */
  lemma {:induction false} MapTermsUnlabelled(st: Renaming, ts: seq<Term>)
    requires Valid(st)
    ensures var (out, fin) := MapTerms(st, ts);
      forall k :: 0 <= k < |ts| && ts[k].BlankNode? && ts[k].value == "" ==>
        out[k].Fresh? && st.next <= out[k].id < fin.next
        && (forall l :: l in fin.names ==> fin.names[l] != out[k].id)
        && (forall j :: 0 <= j < |ts| && j != k ==> out[j] != out[k])
    decreases |ts|, 1
  {
    if |ts| > 0 {
      var out := MapTerms(st, ts).0;
      var fin := MapTerms(st, ts).1;
      forall k | 1 <= k < |ts| && ts[k].BlankNode? && ts[k].value == ""
        ensures out[k].Fresh? && st.next <= out[k].id < fin.next
          && (forall l :: l in fin.names ==> fin.names[l] != out[k].id)
          && (forall j :: 0 <= j < |ts| && j != k ==> out[j] != out[k])
      {
        LaterUnlabelledApart(st, ts, k);
      }
      if ts[0].BlankNode? && ts[0].value == "" {
        FirstUnlabelledApart(st, ts);
      }
    }
  }

  /** An unlabelled term after the first gets a node of its own: the rest of the run
      keeps it apart from the later terms, and the counter from the first. */
  lemma LaterUnlabelledApart(st: Renaming, ts: seq<Term>, k: int)
    requires Valid(st) && 1 <= k < |ts| && ts[k].BlankNode? && ts[k].value == ""
    ensures var (out, fin) := MapTerms(st, ts);
      && out[k].Fresh? && st.next <= out[k].id < fin.next
      && (forall l :: l in fin.names ==> fin.names[l] != out[k].id)
      && (forall j :: 0 <= j < |ts| && j != k ==> out[j] != out[k])
    decreases |ts|, 0
  {
    var (o, st1) := MapTerm(st, ts[0]);
    assert Valid(st1);
    MapTermsUnlabelled(st1, ts[1..]);
    MapTermsState(st1, ts[1..]);
    FirstBelowRest(st, ts);
    var (rest, fin) := MapTerms(st1, ts[1..]);
    assert MapTerms(st, ts) == ([o] + rest, fin);
    assert ts[1..][k - 1] == ts[k];
  }

  /** The first output term, when fresh, is below every fresh node the rest's
      unlabelled terms get, and is the node of the label it names, if any. */
  lemma FirstBelowRest(st: Renaming, ts: seq<Term>)
    requires Valid(st) && |ts| > 0
    ensures var (o, st1) := MapTerm(st, ts[0]);
      && (o.Fresh? ==> o.id < st1.next)
      && (o.Fresh? && !(ts[0].value == "") ==> ts[0].value in st1.names && st1.names[ts[0].value] == o.id)
  {
  }

  /** An unlabelled first term gets a node no later output term has. */
  lemma FirstUnlabelledApart(st: Renaming, ts: seq<Term>)
    requires Valid(st) && |ts| > 0 && ts[0].BlankNode? && ts[0].value == ""
    ensures var (out, fin) := MapTerms(st, ts);
      && out[0] == Fresh(st.next) && st.next < fin.next
      && (forall l :: l in fin.names ==> fin.names[l] != st.next)
      && (forall j :: 1 <= j < |ts| ==> out[j] != out[0])
    decreases |ts|, 0
  {
    var (o, st1) := MapTerm(st, ts[0]);
    assert Valid(st1);
    MapTermsKeeps(st1, ts[1..]);
    MapTermsLabels(st1, ts[1..]);
    MapTermsUnlabelled(st1, ts[1..]);
    MapTermsState(st1, ts[1..]);
    var (rest, fin) := MapTerms(st1, ts[1..]);
    assert MapTerms(st, ts) == ([o] + rest, fin);
    forall j | 0 <= j < |rest|
      ensures rest[j] != o
    {
      assert ts[1..][j] == ts[j + 1];
    }
  }

  /** Renaming is consistent and separating: two labelled blank nodes get the same
      fresh node exactly when their labels agree, an unlabelled blank node gets a node
      of its own, other terms are kept, and the node made by the discarded call is
      never used. */
  lemma RenamingIsConsistent(counter: nat, qs: seq<Quad>)
    ensures var out := OutTerms(JsonldToQuads(counter, qs));
      var ts := Terms(qs);
      && (forall i, j :: (0 <= i < |ts| && 0 <= j < |ts| && ts[i].BlankNode? && ts[j].BlankNode?
            && ts[i].value != "" && ts[j].value != "") ==> (out[i] == out[j] <==> ts[i].value == ts[j].value))
      && (forall i, j :: 0 <= i < |ts| && 0 <= j < |ts| && i != j && ts[i].BlankNode? && ts[i].value == "" ==>
            out[i] != out[j])
      && (forall i :: 0 <= i < |ts| && !ts[i].BlankNode? ==> out[i] == Kept(ts[i]))
      && (forall i :: 0 <= i < |ts| && out[i].Fresh? ==> out[i].id > counter)
  {
    var st := Renaming(map[], counter + 1);
    MapQuadsIsMapTerms(st, qs);
    MapTermsRenames(st, Terms(qs));
    MapTermsState(st, Terms(qs));
  }
}
