/** `wktPolygonToCoordinates` of `src/helpers/wktPolygonToCoordinates.ts`: the numbers
    of a WKT polygon's first ring as one flat list. `parseFloat` is a parameter. */
module WktCoordinates {
  import opened Wrappers
  import opened Strings
  import VcsHelpers

  /** The separators of `/ |\,/g`: one space or one comma. */
  predicate IsWktSeparator(c: char) {
    c == ' ' || c == ','
  }

  /** `.split(/ |\,/g).filter(Boolean)`: the non-empty words between separators. */
  function Tokens(body: string): (r: seq<string>)
    ensures forall k :: 0 <= k < |r| ==> r[k] != ""
    ensures forall k :: 0 <= k < |r| ==> forall i :: 0 <= i < |r[k]| ==> !IsWktSeparator(r[k][i])
  {
    var pieces := SplitWhere(IsWktSeparator, body);
    var r := NonEmpty(pieces);
    assert forall k :: 0 <= k < |r| ==> r[k] in pieces;
    r
  }

  function ParseAll(parseFloat: string -> real, words: seq<string>): (r: seq<real>)
    ensures |r| == |words|
    ensures forall k :: 0 <= k < |words| ==> r[k] == parseFloat(words[k])
  {
    if |words| == 0 then [] else [parseFloat(words[0])] + ParseAll(parseFloat, words[1..])
  }

  /** `wkt.split('((')[1].split('))')[0]`: the text after the first `((`, up to the
      next `((` or `))`. Without `((` the second piece is `undefined` and calling
      `split` on it is a TypeError. */
  function RingText(wkt: string): (r: Result<string>)
    ensures r.Err? ==> r.error == TypeError
  {
    var parts := Split(wkt, "((");
    if |parts| < 2 then Err(TypeError) else Ok(Split(parts[1], "))")[0])
  }

  /** `wktPolygonToCoordinates(wkt)`: one number per token, in order. */
  function WktPolygonToCoordinates(parseFloat: string -> real, wkt: string): (r: Result<seq<real>>)
    ensures r.Err? ==> r.error == TypeError
    ensures r.Ok? ==> RingText(wkt).Ok? && |r.value| == |Tokens(RingText(wkt).value)|
  {
    var body :- RingText(wkt);
    Ok(ParseAll(parseFloat, Tokens(body)))
  }

  /** The function throws exactly when the text holds no `((`. */
  lemma WktThrowsIff(parseFloat: string -> real, wkt: string)
    ensures WktPolygonToCoordinates(parseFloat, wkt).Err? <==> !Contains(wkt, "((")
  {
    SplitHasSecond(wkt, "((");
  }

  /** A number as it is written in WKT text: not empty, no space, comma or bracket. */
  predicate Numeral(w: string) {
    && w != ""
    && forall i :: 0 <= i < |w| ==> w[i] != ' ' && w[i] != ',' && w[i] != '(' && w[i] != ')'
  }

  /** The flat list `x0, y0, x1, y1, ...`. */
  function Interleave(xs: seq<string>, ys: seq<string>): (r: seq<string>)
    requires |xs| == |ys|
    ensures |r| == 2 * |xs|
    ensures forall i :: 0 <= i < |xs| ==> r[2 * i] == xs[i] && r[2 * i + 1] == ys[i]
  {
    if |xs| == 0 then []
    else
      var rest := Interleave(xs[1..], ys[1..]);
      assert forall i :: 1 <= i < |xs| ==> xs[i] == xs[1..][i - 1] && ys[i] == ys[1..][i - 1];
      [xs[0], ys[0]] + rest
  }

  /** The words of `x0 y0,x1 y1,...` are the numbers in order. */
  lemma TokensOfPairs(xs: seq<string>, ys: seq<string>)
    requires |xs| == |ys| >= 1
    requires forall i :: 0 <= i < |xs| ==> Numeral(xs[i]) && Numeral(ys[i])
    ensures Tokens(Join(VcsHelpers.PairChunks(xs, ys), ",")) == Interleave(xs, ys)
  {
    PiecesOfPairs(xs, ys);
    NonEmptyKeeps(Interleave(xs, ys));
  }

  lemma {:induction false} PiecesOfPairs(xs: seq<string>, ys: seq<string>)
    requires |xs| == |ys| >= 1
    requires forall i :: 0 <= i < |xs| ==> Numeral(xs[i]) && Numeral(ys[i])
    ensures SplitWhere(IsWktSeparator, Join(VcsHelpers.PairChunks(xs, ys), ",")) == Interleave(xs, ys)
    decreases |xs|
  {
    var chunks := VcsHelpers.PairChunks(xs, ys);
    var x := xs[0];
    var y := ys[0];
    assert Numeral(x) && Numeral(y);
    if |xs| == 1 {
      assert chunks == [x + " " + y];
      LastPair(x, y);
    } else {
      var rest := VcsHelpers.PairChunks(xs[1..], ys[1..]);
      assert chunks == [x + " " + y] + rest;
      JoinCons(x + " " + y, rest, ",");
      PiecesOfPairs(xs[1..], ys[1..]);
      PairThenMore(x, y, Join(rest, ","));
      assert Interleave(xs, ys) == [x, y] + Interleave(xs[1..], ys[1..]);
    }
  }

  lemma LastPair(x: string, y: string)
    requires Numeral(x) && Numeral(y)
    ensures SplitWhere(IsWktSeparator, x + " " + y) == [x, y]
  {
    SplitWhereCons(IsWktSeparator, x, ' ', y);
    RunOver(Complement(IsWktSeparator), y, "");
    assert y + "" == y;
  }

  lemma PairThenMore(x: string, y: string, tail: string)
    requires Numeral(x) && Numeral(y)
    ensures SplitWhere(IsWktSeparator, x + " " + y + "," + tail) == [x, y] + SplitWhere(IsWktSeparator, tail)
  {
    assert x + " " + y + "," + tail == x + [' '] + (y + [','] + tail);
    SplitWhereCons(IsWktSeparator, x, ' ', y + [','] + tail);
    SplitWhereCons(IsWktSeparator, y, ',', tail);
  }

  /** Only the text between the first `((` and the next `))` is read: whatever comes
      before (a CRS IRI, the keyword) and after is ignored, and a ring written as
      `x0 y0,x1 y1,...` gives the flat list of its numbers, two per position. */
  lemma WktRoundTrip(parseFloat: string -> real, prefix: string, xs: seq<string>, ys: seq<string>, suffix: string)
    requires |xs| == |ys| >= 1
    requires forall i :: 0 <= i < |xs| ==> Numeral(xs[i]) && Numeral(ys[i])
    requires forall i :: 0 <= i < |prefix| ==> prefix[i] != '('
    ensures var ring := Join(VcsHelpers.PairChunks(xs, ys), ",");
      WktPolygonToCoordinates(parseFloat, prefix + "((" + ring + "))" + suffix)
        == Ok(ParseAll(parseFloat, Interleave(xs, ys)))
  {
    var ring := Join(VcsHelpers.PairChunks(xs, ys), ",");
    var wkt := prefix + "((" + ring + "))" + suffix;
    RingHasNoBrackets(xs, ys);
    RingTextBetween(prefix, ring, suffix);
    TokensOfPairs(xs, ys);
    assert WktPolygonToCoordinates(parseFloat, wkt) == Ok(ParseAll(parseFloat, Tokens(ring)));
  }

  /** The ring text is what lies between the first `((` and the following `))`,
      when neither the text before nor the ring holds a bracket. */
  lemma RingTextBetween(prefix: string, ring: string, suffix: string)
    requires forall i :: 0 <= i < |prefix| ==> prefix[i] != '('
    requires forall i :: 0 <= i < |ring| ==> NoBracket(ring[i])
    ensures RingText(prefix + "((" + ring + "))" + suffix) == Ok(ring)
  {
    var wkt := prefix + "((" + ring + "))" + suffix;
    var after := ring + "))" + suffix;
    assert wkt == prefix + ("((" + after);
    assert StartsWith(wkt, prefix) by { assert wkt[..|prefix|] == prefix; }
    assert OccursAt(wkt, "((", |prefix|) by { assert wkt[|prefix|..|prefix| + 2] == "(("; }
    SplitAtFirst(wkt, "((", prefix);
    assert wkt[|prefix| + 2..] == after;
    AfterOpening(ring, suffix);
  }

  lemma AfterOpening(ring: string, suffix: string)
    requires forall i :: 0 <= i < |ring| ==> NoBracket(ring[i])
    ensures Split(Split(ring + "))" + suffix, "((")[0], "))")[0] == ring
  {
    var after := ring + "))" + suffix;
    var head := ring + "))";
    assert StartsWith(after, head) by { assert after[..|head|] == head; }
    assert forall i :: 0 <= i < |head| ==> head[i] != '(' by {
      assert forall i :: 0 <= i < |ring| ==> head[i] == ring[i];
    }
    SplitHead(after, "((", head);
    var piece := Split(after, "((")[0];
    assert StartsWith(piece, ring) && OccursAt(piece, "))", |ring|) by {
      assert piece[..|head|] == head;
      assert piece[..|ring|] == ring;
      assert piece[|ring|..|ring| + 2] == "))";
    }
    SplitAtFirst(piece, "))", ring);
  }

  /** The ring text holds no bracket. */
  lemma RingHasNoBrackets(xs: seq<string>, ys: seq<string>)
    requires |xs| == |ys|
    requires forall i :: 0 <= i < |xs| ==> Numeral(xs[i]) && Numeral(ys[i])
    ensures forall i :: 0 <= i < |Join(VcsHelpers.PairChunks(xs, ys), ",")| ==>
      NoBracket(Join(VcsHelpers.PairChunks(xs, ys), ",")[i])
  {
    var chunks := VcsHelpers.PairChunks(xs, ys);
    forall k | 0 <= k < |chunks|
      ensures forall i :: 0 <= i < |chunks[k]| ==> NoBracket(chunks[k][i])
    {
      assert chunks[k] == xs[k] + " " + ys[k];
    }
    JoinKeeps(NoBracket, chunks, ",");
  }

  predicate NoBracket(c: char) {
    c != '(' && c != ')'
  }

  /** Text without `((` makes the function throw. */
  lemma NoRingThrows(parseFloat: string -> real, wkt: string)
    requires forall i :: 0 <= i < |wkt| ==> wkt[i] != '('
    ensures WktPolygonToCoordinates(parseFloat, wkt) == Err(TypeError)
  {
    forall k | 0 <= k
      ensures !OccursAt(wkt, "((", k)
    {
      OccursAtHead(wkt, "((", k);
    }
    WktThrowsIff(parseFloat, wkt);
  }
}
