/** The pure helpers of `src/VCS/helperFunctions.ts`: the date stamp, the API-key
    check and the parser of a WKT `POLYGON` string. The clock and the process
    environment are parameters. */
module VcsHelpers {
  import opened Wrappers
  import opened Strings

  // ----- getCurrentDate -----

  /** `getCurrentDate(format)` for a clock showing `year`, the zero-based month
      `month0` (what `getMonth` returns) and the day of the month. */
  function CurrentDate(format: string, year: nat, month0: nat, day: nat): string
  {
    var y := NatToString(year);
    var m := Pad2(month0 + 1);
    var d := Pad2(day);
    if format == "US" then y + "-" + m + "-" + d else d + "-" + m + "-" + y
  }

  /** Three digit fields joined by "-" split back into those fields. */
  lemma DateSplit(a: string, b: string, c: string)
    requires AllDigits(a) && AllDigits(b) && AllDigits(c)
    ensures Split(a + "-" + b + "-" + c, "-") == [a, b, c]
  {
    JoinCons(b, [c], "-");
    JoinCons(a, [b, c], "-");
    assert Join([a, b, c], "-") == a + "-" + b + "-" + c;
    var parts := [a, b, c];
    assert forall k :: 0 <= k < 3 ==> AllDigits(parts[k]);
    SplitJoinChar(parts, '-');
  }

  /** Both formats hold the same three fields, split by "-": year, month and day for
      "US" and the reverse for any other format. The year reads back as the number
      it was made from, the month is one more than `getMonth`, and month and day are
      two digits. */
  lemma CurrentDateFields(year: nat, month0: nat, day: nat, other: string)
    requires month0 < 12 && 1 <= day <= 31 && other != "US"
    ensures var us := Split(CurrentDate("US", year, month0, day), "-");
      && |us| == 3 && AllDigits(us[0]) && AllDigits(us[1]) && AllDigits(us[2])
      && DigitsValue(us[0]) == year
      && |us[1]| == 2 && DigitsValue(us[1]) == month0 + 1
      && |us[2]| == 2 && DigitsValue(us[2]) == day
    ensures var us := Split(CurrentDate("US", year, month0, day), "-");
      |us| == 3 && Split(CurrentDate(other, year, month0, day), "-") == [us[2], us[1], us[0]]
  {
    var y := NatToString(year);
    var m := Pad2(month0 + 1);
    var d := Pad2(day);
    NatToStringRoundTrip(year);
    assert CurrentDate("US", year, month0, day) == y + "-" + m + "-" + d;
    assert CurrentDate(other, year, month0, day) == d + "-" + m + "-" + y;
    DateSplit(y, m, d);
    DateSplit(d, m, y);
    var us := Split(CurrentDate("US", year, month0, day), "-");
    assert us == [y, m, d];
  }

  // ----- checkAPIKey -----

  const DsoProduction: string := "DSO Production API"
  const DsoPreProduction: string := "DSO Pre-Production API"
  /** The third API type, spelled as the code spells it. */
  const RuimtelijkePlannen: string := "Ruitemlijke Plannen API"

  const DsoProductionToken: string := "DSO_Production_API_TOKEN"
  const DsoPreProductionToken: string := "DSO_PreProduction_API_TOKEN"
  const RuimtelijkePlannenToken: string := "Ruimtelijke_plannen_aanvragen_API_TOKEN"

  /** `process.env[name]` is truthy: set and not empty. */
  predicate IsSet(env: map<string, string>, name: string) {
    name in env && env[name] != ""
  }

  /** The message thrown when the token of API `api` is missing. */
  function MissingKey(api: string, variable: string): string {
    api + " is used but no API key was specified, for local development please create an `.env` file"
      + " and add the API key as variable: \"" + variable + "\""
  }

  function Unsupported(typeApi: string): string {
    "Specified API type '" + typeApi + "' is not supported. Please use: "
      + "DSO Production API, DSO Pre-Production API, Ruitemlijke Plannen API"
  }

  /** The environment variable holding the key of each supported API type. */
  function TokenVariable(typeApi: string): (r: Option<string>)
    ensures r.Some? <==> typeApi == DsoProduction || typeApi == DsoPreProduction || typeApi == RuimtelijkePlannen
  {
    if typeApi == DsoProduction then Some(DsoProductionToken)
    else if typeApi == DsoPreProduction then Some(DsoPreProductionToken)
    else if typeApi == RuimtelijkePlannen then Some(RuimtelijkePlannenToken)
    else None
  }

  /** The name the missing-key message gives each supported API. */
  function ApiName(typeApi: string): string {
    if typeApi == RuimtelijkePlannen then "Ruimtelijke Plannen API" else typeApi
  }

  /** `checkAPIKey(typeAPI)` as written: three separate `if`s, the last of which has
      an `else` that throws "not supported" for every type but the third. */
  function CheckApiKeyAsWritten(typeApi: string, env: map<string, string>): (r: Result<()>)
    ensures r.Ok? <==> typeApi == RuimtelijkePlannen && IsSet(env, RuimtelijkePlannenToken)
  {
    ApiTypesDiffer();
    if typeApi == DsoProduction && !IsSet(env, DsoProductionToken) then
      Err(Thrown(MissingKey("DSO Production API", DsoProductionToken)))
    else if typeApi == DsoPreProduction && !IsSet(env, DsoPreProductionToken) then
      Err(Thrown(MissingKey("DSO Pre-Production API", DsoPreProductionToken)))
    else if typeApi == RuimtelijkePlannen then
      if !IsSet(env, RuimtelijkePlannenToken) then
        Err(Thrown(MissingKey("Ruimtelijke Plannen API", RuimtelijkePlannenToken)))
      else Ok(())
    else Err(Thrown(Unsupported(typeApi)))
  }

  /** The three API types are different names: their lengths differ. */
  lemma ApiTypesDiffer()
    ensures DsoProduction != DsoPreProduction
    ensures DsoProduction != RuimtelijkePlannen && DsoPreProduction != RuimtelijkePlannen
  {
    assert |DsoProduction| == 18 && |DsoPreProduction| == 22 && |RuimtelijkePlannen| == 23;
  }

  /** As written, both DSO types are always rejected: with their key present they
      are reported as not supported. */
  lemma DsoKeysAlwaysRejected(env: map<string, string>)
    requires IsSet(env, DsoProductionToken) && IsSet(env, DsoPreProductionToken)
    ensures CheckApiKeyAsWritten(DsoProduction, env) == Err(Thrown(Unsupported(DsoProduction)))
    ensures CheckApiKeyAsWritten(DsoPreProduction, env) == Err(Thrown(Unsupported(DsoPreProduction)))
  {
  }

  /** The evidently intended check: an `else if` chain, so each supported type
      passes exactly when its own key is set. */
  function CheckApiKey(typeApi: string, env: map<string, string>): (r: Result<()>)
    ensures r.Ok? <==> TokenVariable(typeApi).Some? && IsSet(env, TokenVariable(typeApi).value)
  {
    match TokenVariable(typeApi)
    case None => Err(Thrown(Unsupported(typeApi)))
    case Some(variable) =>
      if !IsSet(env, variable) then Err(Thrown(MissingKey(ApiName(typeApi), variable))) else Ok(())
  }

  /** The corrected check throws the same errors as the original wherever the
      original passes or reports a missing key; it differs only by accepting a DSO
      type whose key is set. */
  lemma CheckApiKeyAgrees(typeApi: string, env: map<string, string>)
    ensures CheckApiKey(typeApi, env) != CheckApiKeyAsWritten(typeApi, env) <==>
      (typeApi == DsoProduction && IsSet(env, DsoProductionToken))
      || (typeApi == DsoPreProduction && IsSet(env, DsoPreProductionToken))
  {
    ApiTypesDiffer();
    if typeApi == DsoProduction {
      assert ApiName(typeApi) == "DSO Production API";
    } else if typeApi == DsoPreProduction {
      assert ApiName(typeApi) == "DSO Pre-Production API";
    } else if typeApi == RuimtelijkePlannen {
      assert ApiName(typeApi) == "Ruimtelijke Plannen API";
    } else {
      assert TokenVariable(typeApi).None?;
    }
  }

  // ----- parsePolygonString -----

  const InvalidPolygon: string := "Invalid POLYGON string format"

  predicate AllSpace(s: string) {
    forall i :: 0 <= i < |s| ==> IsSpace(s[i])
  }

  predicate NotClose(c: char) {
    c != ')'
  }

  /** One match of `/POLYGON\s*\(\(\s*([^\)]+)\s*\)\)/`: the white space after the
      keyword, the white space after `((`, the captured group and the text after the
      closing `))`. */
  datatype PolygonMatch = PolygonMatch(gap: string, lead: string, group: string, tail: string)

  function SpellPolygon(m: PolygonMatch): string {
    "POLYGON" + (m.gap + ("((" + (m.lead + (m.group + ("))" + m.tail)))))
  }

  /** The text the group and the white space before it take: the group holds no `)`
      and at least one character; the greedy `\s*` before it takes all leading white
      space, except that it gives back one character when the text inside the
      brackets is nothing but white space. The greedy group then runs up to the first
      `)`, so the final `\s*` is always empty. */
  predicate GroupChosen(lead: string, group: string) {
    && AllSpace(lead)
    && |group| > 0 && (forall i :: 0 <= i < |group| ==> NotClose(group[i]))
    && (!IsSpace(group[0]) || |group| == 1)
  }

  /** The match the expression picks at a position. */
  predicate Chosen(m: PolygonMatch) {
    AllSpace(m.gap) && GroupChosen(m.lead, m.group)
  }

  /** `POLYGON\s*\(\(` at the start of `u`: the white space and the rest. */
  function Opening(u: string): (r: Option<(string, string)>)
    ensures r.Some? ==> AllSpace(r.value.0) && u == "POLYGON" + (r.value.0 + ("((" + r.value.1))
  {
    if !StartsWith(u, "POLYGON") then None
    else
      var v := u[7..];
      var g := Run(IsSpace, v);
      var w := v[g..];
      if !StartsWith(w, "((") then None
      else
        assert w == "((" + w[2..];
        assert v == v[..g] + w;
        assert u == "POLYGON" + v;
        Some((v[..g], w[2..]))
  }

  lemma OpeningReads(gap: string, x: string)
    requires AllSpace(gap)
    ensures Opening("POLYGON" + (gap + ("((" + x))) == Some((gap, x))
  {
    var u := "POLYGON" + (gap + ("((" + x));
    var w := "((" + x;
    assert u[..7] == "POLYGON";
    assert u[7..] == gap + w;
    RunOver(IsSpace, gap, w);
    assert (gap + w)[|gap|..] == w;
    assert (gap + w)[..|gap|] == gap;
    assert w[..2] == "((" && w[2..] == x;
  }

  /** `\s*([^\)]+)\s*\)\)` at the start of `x`: the leading white space, the group
      and the text after the brackets. */
  function Inside(x: string): (r: Option<(string, string, string)>)
    ensures r.Some? ==> GroupChosen(r.value.0, r.value.1) && x == r.value.0 + (r.value.1 + ("))" + r.value.2))
  {
    var n := Run(NotClose, x);
    if n == 0 || !StartsWith(x[n..], "))") then None
    else
      var inside := x[..n];
      var l := Run(IsSpace, inside);
      var lead := if l < n then l else n - 1;
      InsideGroup(x, n, l, lead);
      InsideJoin(x, n, lead);
      Some((inside[..lead], inside[lead..], x[n + 2..]))
  }

  /** The text before the first `)`, split where the leading white space ends (one
      character early if it is all white space), is a chosen lead and group. */
  lemma InsideGroup(x: string, n: nat, l: nat, lead: nat)
    requires 0 < n == Run(NotClose, x)
    requires l == Run(IsSpace, x[..n]) && lead == (if l < n then l else n - 1)
    ensures GroupChosen(x[..n][..lead], x[..n][lead..])
  {
    var inside := x[..n];
    var group := inside[lead..];
    assert forall i :: 0 <= i < |group| ==> group[i] == x[lead + i];
    assert forall i :: 0 <= i < lead ==> inside[..lead][i] == inside[i];
    if l < n {
      assert group[0] == inside[l];
    }
  }

  /** The text around the closing `))` put back together. */
  lemma InsideJoin(x: string, n: nat, lead: nat)
    requires lead <= n <= |x| && StartsWith(x[n..], "))")
    ensures x == x[..n][..lead] + (x[..n][lead..] + ("))" + x[n + 2..]))
  {
    var inside := x[..n];
    assert x[n..] == "))" + x[n + 2..];
    assert x == inside + x[n..];
    assert inside == inside[..lead] + inside[lead..];
  }

  lemma InsideReads(lead: string, group: string, tail: string)
    requires GroupChosen(lead, group)
    ensures Inside(lead + (group + ("))" + tail))) == Some((lead, group, tail))
  {
    var x := lead + (group + ("))" + tail));
    var n := |lead| + |group|;
    InsideRunsToClose(lead, group, tail);
    InsideLeadLength(lead, group);
    var inside := lead + group;
    assert inside[..|lead|] == lead && inside[|lead|..] == group;
  }

  /** The group of a chosen split runs up to the closing brackets. */
  lemma InsideRunsToClose(lead: string, group: string, tail: string)
    requires GroupChosen(lead, group)
    ensures var x := lead + (group + ("))" + tail));
      var n := |lead| + |group|;
      && Run(NotClose, x) == n && x[..n] == lead + group
      && StartsWith(x[n..], "))") && x[n + 2..] == tail
  {
    var x := lead + (group + ("))" + tail));
    assert x == (lead + group) + ("))" + tail);
    assert forall i :: 0 <= i < |lead| ==> NotClose(lead[i]);
    RunOver(NotClose, lead + group, "))" + tail);
    var n := |lead| + |group|;
    assert x[n..] == "))" + tail;
    assert x[..n] == lead + group;
  }

  /** The leading white space of a chosen split ends where its group begins, one
      character early when the group is a single white space character. */
  lemma InsideLeadLength(lead: string, group: string)
    requires GroupChosen(lead, group)
    ensures var n := |lead| + |group|;
      var l := Run(IsSpace, lead + group);
      (if l < n then l else n - 1) == |lead|
  {
    if !IsSpace(group[0]) {
      RunOver(IsSpace, lead, group);
    } else {
      RunOver(IsSpace, lead + group, "");
      assert lead + group + "" == lead + group;
    }
  }

  /** The expression at the start of `u`. */
  function ScanPolygon(u: string): (r: Option<PolygonMatch>)
    ensures r.Some? ==> Chosen(r.value) && u == SpellPolygon(r.value)
  {
    match Opening(u)
    case None => None
    case Some((gap, x)) =>
      match Inside(x)
      case None => None
      case Some((lead, group, tail)) => Some(PolygonMatch(gap, lead, group, tail))
  }

  /** The scanner finds the match the expression picks, and nothing else starts
      there. */
  lemma ScanPolygonComplete(m: PolygonMatch)
    requires Chosen(m)
    ensures ScanPolygon(SpellPolygon(m)) == Some(m)
  {
    var x := m.lead + (m.group + ("))" + m.tail));
    OpeningReads(m.gap, x);
    InsideReads(m.lead, m.group, m.tail);
  }

  /** A comma-separated chunk read as `[x, y]`: `Number` of the first and second
      white-space separated words. A chunk with one word has no `y`. */
  datatype Coordinate = Coordinate(x: real, y: Option<real>)

  /** `t.split(/\s+/)` of a trimmed `t`: its words, or one empty word. */
  function Words(t: string): (r: seq<string>)
    requires t == "" || !IsSpace(t[0])
    ensures |r| >= 1
  {
    if t == "" then [""]
    else
      var pieces := SplitWhere(IsSpace, t);
      assert Complement(IsSpace)(t[0]);
      assert pieces[0] != "";
      NonEmpty(pieces)
  }

  function ReadCoordinate(toNumber: string -> real, chunk: string): Coordinate {
    var words := Words(Trim(chunk));
    Coordinate(toNumber(words[0]), if |words| >= 2 then Some(toNumber(words[1])) else None)
  }

  function ReadCoordinates(toNumber: string -> real, chunks: seq<string>): (r: seq<Coordinate>)
    ensures |r| == |chunks|
    ensures forall i :: 0 <= i < |chunks| ==> r[i] == ReadCoordinate(toNumber, chunks[i])
  {
    if |chunks| == 0 then [] else [ReadCoordinate(toNumber, chunks[0])] + ReadCoordinates(toNumber, chunks[1..])
  }

  /** `parsePolygonString(s)`, with `Number` as the parameter `toNumber`: the group of
      the leftmost match, one coordinate per comma-separated chunk. */
  function ParsePolygonString(toNumber: string -> real, s: string): (r: Result<seq<Coordinate>>)
    ensures r.Err? <==> forall q :: 0 <= q <= |s| ==> ScanPolygon(s[q..]).None?
    ensures r.Err? ==> r.error == Thrown(InvalidPolygon)
  {
    match Leftmost(u => ScanPolygon(u).Some?, s, 0)
    case None => Err(Thrown(InvalidPolygon))
    case Some(p) => Ok(ReadCoordinates(toNumber, Split(ScanPolygon(s[p..]).value.group, ",")))
  }

  /** Words of one line of text, split by single spaces, come back as they were. */
  lemma WordsOfJoin(ws: seq<string>)
    requires |ws| >= 1
    requires forall k :: 0 <= k < |ws| ==> ws[k] != "" && NoSpace(ws[k])
    ensures Trim(Join(ws, " ")) == Join(ws, " ")
    ensures |Join(ws, " ")| > 0 && !IsSpace(Join(ws, " ")[0])
    ensures Words(Join(ws, " ")) == ws
  {
    var t := Join(ws, " ");
    JoinEnds(ws, " ");
    var first := ws[0];
    var last := ws[|ws| - 1];
    assert t[..|first|] == first;
    assert t[0] == first[0];
    assert t[|t| - |last|..] == last;
    assert t[|t| - 1] == last[|last| - 1];
    RunOver(IsSpace, "", t);
    assert "" + t == t;
    assert t[0..] == t;
    assert TrimEnd(t) == t;
    SplitWhereJoin(IsSpace, ws, ' ');
    NonEmptyKeeps(ws);
  }

  /** The text `x y` of one coordinate pair. */
  function PairChunks(xs: seq<string>, ys: seq<string>): (r: seq<string>)
    requires |xs| == |ys|
    ensures |r| == |xs|
    ensures forall i :: 0 <= i < |xs| ==> r[i] == xs[i] + " " + ys[i]
  {
    if |xs| == 0 then [] else [xs[0] + " " + ys[0]] + PairChunks(xs[1..], ys[1..])
  }

  /** The coordinates such pairs stand for. */
  function PairValues(toNumber: string -> real, xs: seq<string>, ys: seq<string>): (r: seq<Coordinate>)
    requires |xs| == |ys|
    ensures |r| == |xs|
    ensures forall i :: 0 <= i < |xs| ==> r[i] == Coordinate(toNumber(xs[i]), Some(toNumber(ys[i])))
  {
    if |xs| == 0 then [] else [Coordinate(toNumber(xs[0]), Some(toNumber(ys[0])))] + PairValues(toNumber, xs[1..], ys[1..])
  }

  /** A number as it is written in WKT text: not empty, no white space, comma or
      bracket. */
  predicate Plain(w: string) {
    && w != "" && NoSpace(w)
    && forall i :: 0 <= i < |w| ==> w[i] != ',' && w[i] != ')'
  }

  /** One pair `x y` reads as the coordinate `[x, y]`. */
  lemma ReadPair(toNumber: string -> real, x: string, y: string)
    requires Plain(x) && Plain(y)
    ensures ReadCoordinate(toNumber, x + " " + y) == Coordinate(toNumber(x), Some(toNumber(y)))
  {
    JoinCons(x, [y], " ");
    assert Join([x, y], " ") == x + " " + y;
    WordsOfJoin([x, y]);
  }

  /** Only one `POLYGON((...))` in the text, at its start, and its group is the
      whole text between the brackets. */
  lemma ParseWholePolygon(toNumber: string -> real, body: string)
    requires GroupChosen("", body)
    ensures ParsePolygonString(toNumber, "POLYGON((" + body + "))") == Ok(ReadCoordinates(toNumber, Split(body, ",")))
  {
    var s := "POLYGON((" + body + "))";
    var m := PolygonMatch("", "", body, "");
    assert SpellPolygon(m) == s;
    ScanPolygonComplete(m);
    assert s[0..] == s;
  }

  /** The text between the brackets of such a polygon is taken whole by the group,
      and splitting it on commas gives the pairs back. */
  lemma PairChunksBody(xs: seq<string>, ys: seq<string>)
    requires |xs| == |ys| >= 1
    requires forall i :: 0 <= i < |xs| ==> Plain(xs[i]) && Plain(ys[i])
    ensures GroupChosen("", Join(PairChunks(xs, ys), ","))
    ensures Split(Join(PairChunks(xs, ys), ","), ",") == PairChunks(xs, ys)
  {
    var chunks := PairChunks(xs, ys);
    var body := Join(chunks, ",");
    forall k | 0 <= k < |chunks|
      ensures forall i :: 0 <= i < |chunks[k]| ==> chunks[k][i] != ',' && NotClose(chunks[k][i])
    {
      assert chunks[k] == xs[k] + " " + ys[k];
    }
    JoinKeeps(NotClose, chunks, ",");
    JoinEnds(chunks, ",");
    assert body[..|chunks[0]|] == chunks[0];
    assert body[0] == chunks[0][0] == xs[0][0];
    SplitJoinChar(chunks, ',');
  }

  /** A polygon written as `POLYGON((x0 y0,x1 y1,...))` parses back to its
      coordinates. */
  lemma ParsePolygonRoundTrip(toNumber: string -> real, xs: seq<string>, ys: seq<string>)
    requires |xs| == |ys| >= 1
    requires forall i :: 0 <= i < |xs| ==> Plain(xs[i]) && Plain(ys[i])
    ensures ParsePolygonString(toNumber, "POLYGON((" + Join(PairChunks(xs, ys), ",") + "))")
      == Ok(PairValues(toNumber, xs, ys))
  {
    var chunks := PairChunks(xs, ys);
    PairChunksBody(xs, ys);
    ParseWholePolygon(toNumber, Join(chunks, ","));
    ReadPairs(toNumber, xs, ys);
  }

  lemma ReadPairs(toNumber: string -> real, xs: seq<string>, ys: seq<string>)
    requires |xs| == |ys|
    requires forall i :: 0 <= i < |xs| ==> Plain(xs[i]) && Plain(ys[i])
    ensures ReadCoordinates(toNumber, PairChunks(xs, ys)) == PairValues(toNumber, xs, ys)
  {
    var r := ReadCoordinates(toNumber, PairChunks(xs, ys));
    forall i | 0 <= i < |xs|
      ensures r[i] == PairValues(toNumber, xs, ys)[i]
    {
      ReadPair(toNumber, xs[i], ys[i]);
    }
  }

  /** A text that does not start with `P` does not start a match. */
  lemma NoMatchWithoutKeyword(u: string)
    requires |u| == 0 || u[0] != 'P'
    ensures ScanPolygon(u).None?
  {
    if |u| >= 7 {
      assert u[..7][0] == u[0];
    }
  }

  /** The group ends at the first `)`; if a second one does not follow, there is no
      match. */
  lemma InsideNeedsDoubleParen(a: string, rest: string)
    requires forall i :: 0 <= i < |a| ==> NotClose(a[i])
    requires |rest| >= 2 && rest[0] == ')' && rest[1] != ')'
    ensures Inside(a + rest).None?
  {
    RunOver(NotClose, a, rest);
    assert (a + rest)[|a|..] == rest;
  }

  /** Where the `P`s of `POLYGON((a),(b))` are, for `a` and `b` without one. */
  lemma OnlyLeadingKeyword(a: string, b: string, q: nat)
    requires forall i :: 0 <= i < |a| ==> a[i] != 'P'
    requires forall i :: 0 <= i < |b| ==> b[i] != 'P'
    requires 0 < q < |"POLYGON((" + a + "),(" + b + "))"|
    ensures ("POLYGON((" + a + "),(" + b + "))")[q] != 'P'
  {
    var s := "POLYGON((" + a + "),(" + b + "))";
    if q < 9 {
      assert s[..9] == "POLYGON((";
    } else if q < 9 + |a| {
      assert s[q] == a[q - 9];
    } else if q < 12 + |a| {
      assert s[9 + |a|..12 + |a|] == "),(";
    } else if q < 12 + |a| + |b| {
      assert s[q] == b[q - 12 - |a|];
    } else {
      assert s[12 + |a| + |b|..] == "))";
    }
  }

  /** A polygon with an interior ring, `POLYGON((a),(b))`, is rejected: the group
      stops at the first `)`, which the expression needs to be followed by another. */
  lemma PolygonWithHoleRejected(toNumber: string -> real, a: string, b: string)
    requires forall i :: 0 <= i < |a| ==> a[i] != ')' && a[i] != 'P'
    requires forall i :: 0 <= i < |b| ==> b[i] != 'P'
    ensures ParsePolygonString(toNumber, "POLYGON((" + a + "),(" + b + "))") == Err(Thrown(InvalidPolygon))
  {
    var s := "POLYGON((" + a + "),(" + b + "))";
    forall q | 0 <= q <= |s|
      ensures ScanPolygon(s[q..]).None?
    {
      if q == 0 {
        HoleStopsFirstMatch(a, b);
        assert s[0..] == s;
      } else {
        HoleHasNoLaterMatch(a, b, q);
      }
    }
  }

  /** At the start, the group of `POLYGON((a),(b))` ends at the `)` after `a`, which
      a `,` follows. */
  lemma HoleStopsFirstMatch(a: string, b: string)
    requires forall i :: 0 <= i < |a| ==> a[i] != ')'
    ensures ScanPolygon("POLYGON((" + a + "),(" + b + "))").None?
  {
    var s := "POLYGON((" + a + "),(" + b + "))";
    var rest := "),(" + b + "))";
    var x := a + rest;
    assert s == "POLYGON" + ("" + ("((" + x));
    OpeningReads("", x);
    InsideNeedsDoubleParen(a, rest);
  }

  /** After the start, no `P` begins a keyword. */
  lemma HoleHasNoLaterMatch(a: string, b: string, q: nat)
    requires forall i :: 0 <= i < |a| ==> a[i] != 'P'
    requires forall i :: 0 <= i < |b| ==> b[i] != 'P'
    requires 0 < q <= |"POLYGON((" + a + "),(" + b + "))"|
    ensures ScanPolygon(("POLYGON((" + a + "),(" + b + "))")[q..]).None?
  {
    var s := "POLYGON((" + a + "),(" + b + "))";
    if q < |s| {
      OnlyLeadingKeyword(a, b, q);
      assert s[q..][0] == s[q];
    }
    NoMatchWithoutKeyword(s[q..]);
  }
}
