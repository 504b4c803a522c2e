/** `valideer` of `src/core/valideer.ts`: which check groups run, and for every check
    of a running group the outcome, the message and the report node. The SPARQL
    endpoint is a parameter (`respond`); so is `String(value)` of a result value
    (`text`). Logging, the TriplyDB account lookup and the upload are not modelled. */
module Valideer {
  import opened Wrappers
  import opened Strings
  import opened JsValues

  /** A check (`controle`): its id, its name, and its two messages, already given the
      check's SPARQL inputs. */
  datatype Controle = Controle(id: string, naam: string, berichtGeslaagd: string, berichtGefaald: string)

  datatype CheckGroup = CheckGroup(naam: string, controles: seq<Controle>)

  /** One result row: its entries in `Object.entries` order. */
  type Row = seq<(string, Js)>

  /** What the SPARQL service answers: a failed response with its status text, or
      the rows of the JSON body. */
  datatype Response = Failed(statusText: string) | Rows(rows: seq<Row>)

  /** A node `rpt:controle` of the report: `rdfs:label`, `rpt:passed` (the lexical
      form of an `xsd:boolean`) and `rpt:message`. */
  datatype ControleNode = ControleNode(name: string, passed: string, message: string)

  /** The report: `rpt:building`, `rpt:ifc` and the check nodes in order. */
  datatype Report = Report(building: string, ifc: string, controles: seq<ControleNode>)

  // ----- which groups run -----

  function Ids(cs: seq<Controle>): (r: seq<string>)
    ensures |r| == |cs|
    ensures forall k :: 0 <= k < |cs| ==> r[k] == cs[k].id
  {
    if |cs| == 0 then [] else [cs[0].id] + Ids(cs[1..])
  }

  /** `ruleIds.some((ruleId) => !groupRuleIds.includes(ruleId))`. */
  predicate SomeMissing(ruleIds: seq<string>, groupIds: seq<string>)
    decreases |ruleIds|
  {
    |ruleIds| > 0 && (ruleIds[0] !in groupIds || SomeMissing(ruleIds[1..], groupIds))
  }

  /** The group is skipped when `ruleIds` is non-empty and names an id the group lacks. */
  predicate GroupRuns(ruleIds: seq<string>, g: CheckGroup) {
    !(|ruleIds| > 0 && SomeMissing(ruleIds, Ids(g.controles)))
  }

  lemma {:induction false} SomeMissingIff(ruleIds: seq<string>, groupIds: seq<string>)
    ensures SomeMissing(ruleIds, groupIds) <==> exists k :: 0 <= k < |ruleIds| && ruleIds[k] !in groupIds
    decreases |ruleIds|
  {
    if |ruleIds| > 0 {
      SomeMissingIff(ruleIds[1..], groupIds);
      if exists k :: 0 <= k < |ruleIds| && ruleIds[k] !in groupIds {
        var k :| 0 <= k < |ruleIds| && ruleIds[k] !in groupIds;
        if k > 0 {
          assert ruleIds[1..][k - 1] == ruleIds[k];
        }
      }
    }
  }

  /** A group runs exactly when no ids were asked for, or every id asked for is the
      id of one of its checks. */
  lemma GroupRunsIff(ruleIds: seq<string>, g: CheckGroup)
    ensures GroupRuns(ruleIds, g) <==>
      (|ruleIds| == 0 || forall k :: 0 <= k < |ruleIds| ==> exists j :: 0 <= j < |g.controles| && g.controles[j].id == ruleIds[k])
  {
    var ids := Ids(g.controles);
    SomeMissingIff(ruleIds, ids);
    forall k | 0 <= k < |ruleIds|
      ensures ruleIds[k] in ids <==> exists j :: 0 <= j < |g.controles| && g.controles[j].id == ruleIds[k]
    {
      if ruleIds[k] in ids {
        var j :| 0 <= j < |ids| && ids[j] == ruleIds[k];
        assert g.controles[j].id == ruleIds[k];
      }
    }
  }

  /** The checks that are executed, group by group, in order. */
  function Executed(groups: seq<CheckGroup>, ruleIds: seq<string>): seq<Controle> {
    if |groups| == 0 then []
    else (if GroupRuns(ruleIds, groups[0]) then groups[0].controles else []) + Executed(groups[1..], ruleIds)
  }

  /** Without ids every check of every group is executed. */
  lemma {:induction false} AllExecutedWithoutIds(groups: seq<CheckGroup>)
    ensures |Executed(groups, [])| == TotalChecks(groups)
    decreases |groups|
  {
    if |groups| > 0 {
      AllExecutedWithoutIds(groups[1..]);
    }
  }

  function TotalChecks(groups: seq<CheckGroup>): nat {
    if |groups| == 0 then 0 else |groups[0].controles| + TotalChecks(groups[1..])
  }

  // ----- one check -----

  /** `responseJson[0] ?? null` and the test `if (result)`: a row is present when the
      body has a first element; rows parsed from JSON are objects, so truthy. */
  function FirstRow(rows: seq<Row>): Option<Row> {
    if |rows| == 0 then None else Some(rows[0])
  }

  /** `result.success`: the value of the first entry named `success`, or `undefined`. */
  function Lookup(row: Row, key: string): (v: Js)
    ensures v != Undefined ==> exists k :: 0 <= k < |row| && row[k] == (key, v)
    ensures (forall k :: 0 <= k < |row| ==> row[k].0 != key) ==> v == Undefined
  {
    if |row| == 0 then Undefined
    else if row[0].0 == key then row[0].1
    else
      var v := Lookup(row[1..], key);
      assert forall k :: 0 <= k < |row[1..]| ==> row[1..][k] == row[k + 1];
      v
  }

  /** `result ? result.success : false`. */
  function Success(row: Option<Row>): Js {
    if row.Some? then Lookup(row.value, "success") else Bool(false)
  }

  /** The placeholder of a key: `{?key}`. */
  function Placeholder(key: string): (p: string)
    ensures |p| == |key| + 3 && p[..2] == "{?" && p[|p| - 1] == '}'
  {
    "{?" + key + "}"
  }

  /** `message.replaceAll('{?key}', value)` for every entry in turn. */
  function Substitute(text: Js -> string, message: string, row: Row): string
    decreases |row|
  {
    if |row| == 0 then message
    else Substitute(text, ReplaceAll(message, Placeholder(row[0].0), text(row[0].1)), row[1..])
  }

  /** The message: success or failure text by the truth of `success`, then every
      placeholder of the row replaced. Without a row there is nothing to replace. */
  function Message(text: Js -> string, c: Controle, row: Option<Row>): (m: string)
    ensures row.None? ==> m == c.berichtGefaald
  {
    var template := if Truthy(Success(row)) then c.berichtGeslaagd else c.berichtGefaald;
    if row.Some? then Substitute(text, template, row.value) else template
  }

  /** Substitution leaves a message alone when none of the row's placeholders occurs
      in it. */
  lemma {:induction false} SubstituteAbsent(text: Js -> string, message: string, row: Row)
    requires forall k :: 0 <= k < |row| ==> !Contains(message, Placeholder(row[k].0))
    ensures Substitute(text, message, row) == message
    decreases |row|
  {
    if |row| > 0 {
      ReplaceAllAbsent(message, Placeholder(row[0].0), text(row[0].1));
      assert forall k :: 0 <= k < |row[1..]| ==> row[1..][k] == row[k + 1];
      SubstituteAbsent(text, message, row[1..]);
    }
  }

  /** One entry: every occurrence of its placeholder is replaced by the value's text,
      and everything between occurrences is kept. */
  lemma SubstituteOne(text: Js -> string, message: string, key: string, v: Js)
    ensures Substitute(text, message, [(key, v)]) == Join(Split(message, Placeholder(key)), text(v))
  {
    ReplaceAllIsSplitJoin(message, Placeholder(key), text(v));
  }

  /** `(!!!success).toString()`: the literal is "true" exactly when `success` is falsy. */
  function PassedAsWritten(success: Js): (r: string)
    ensures r == "true" <==> !Truthy(success)
  {
    if !Truthy(success) then "true" else "false"
  }

  /** The literal that agrees with the message: "true" exactly when `success` is truthy. */
  function Passed(success: Js): (r: string)
    ensures r == "true" <==> Truthy(success)
    ensures r == "true" || r == "false"
  {
    if Truthy(success) then "true" else "false"
  }

  /** The report node of one check, or the error a failed response throws. The
      lexical form of `rpt:passed` is `literal` of the success value: the program
      writes `PassedAsWritten`, the corrected reading `Passed`. */
  function RunControle(literal: Js -> string, text: Js -> string, c: Controle, resp: Response): (r: Result<ControleNode>)
    ensures resp.Failed? <==> r.Err?
    ensures r.Err? ==> r.error == Thrown(resp.statusText)
    ensures r.Ok? ==> r.value.name == c.naam
  {
    match resp
    case Failed(status) => Err(Thrown(status))
    case Rows(rows) =>
      var row := FirstRow(rows);
      Ok(ControleNode(c.naam, literal(Success(row)), Message(text, c, row)))
  }

  /** With the corrected literal, the node says "true" exactly when the success
      message was chosen; an empty answer fails with the failure message unchanged. */
  lemma PassedMatchesMessage(text: Js -> string, c: Controle, rows: seq<Row>)
    ensures var node := RunControle(Passed, text, c, Rows(rows)).value;
      var row := FirstRow(rows);
      && (node.passed == "true" <==> Truthy(Success(row)))
      && (rows == [] ==> node.passed == "false" && node.message == c.berichtGefaald)
      && (rows != [] ==> node.message == Substitute(text,
            if Truthy(Lookup(rows[0], "success")) then c.berichtGeslaagd else c.berichtGefaald, rows[0]))
  {
  }

  /** As written, a check whose first row reports `success: true` gets the success
      message and `rpt:passed "false"`. */
  lemma PassedAsWrittenContradictsMessage(text: Js -> string, c: Controle, row: Row)
    requires |row| > 0 && row[0] == ("success", Bool(true))
    ensures Message(text, c, Some(row)) == Substitute(text, c.berichtGeslaagd, row)
    ensures PassedAsWritten(Success(Some(row))) == "false"
    ensures Passed(Success(Some(row))) == "true"
  {
    assert Success(Some(row)) == Bool(true);
    assert Truthy(Bool(true));
  }

  // ----- the whole run -----

  /** The nodes of the checks in order, stopping at the first failed response. */
  function RunAll(literal: Js -> string, text: Js -> string, respond: Controle -> Response, cs: seq<Controle>): (r: Result<seq<ControleNode>>)
    ensures r.Ok? ==> |r.value| == |cs|
    ensures r.Ok? ==> forall k :: 0 <= k < |cs| ==>
      respond(cs[k]).Rows? && r.value[k] == RunControle(literal, text, cs[k], respond(cs[k])).value
    ensures r.Ok? <==> forall k :: 0 <= k < |cs| ==> respond(cs[k]).Rows?
    decreases |cs|
  {
    if |cs| == 0 then Ok([])
    else
      var node :- RunControle(literal, text, cs[0], respond(cs[0]));
      var rest :- RunAll(literal, text, respond, cs[1..]);
      assert forall k :: 1 <= k < |cs| ==> cs[k] == cs[1..][k - 1];
      Ok([node] + rest)
  }

  /** `valideer`: the report of every executed check, `literal` writing `rpt:passed`. */
  function Valideer(literal: Js -> string, text: Js -> string, respond: Controle -> Response, inputIfc: string,
                    groups: seq<CheckGroup>, datasetName: string, baseIri: string,
                    ruleIds: seq<string>): (r: Result<Report>)
    ensures r.Ok? ==> r.value.building == baseIri + datasetName + "/gebouw" && r.value.ifc == inputIfc
  {
    var nodes :- RunAll(literal, text, respond, Executed(groups, ruleIds));
    Ok(Report(baseIri + datasetName + "/gebouw", inputIfc, nodes))
  }

  /** The report holds exactly one check node per executed check, in order and named
      after it; the run throws exactly when some executed check's response failed. */
  lemma OneNodePerExecutedCheck(literal: Js -> string, text: Js -> string, respond: Controle -> Response, inputIfc: string,
                                groups: seq<CheckGroup>, datasetName: string, baseIri: string,
                                ruleIds: seq<string>)
    ensures Valideer(literal, text, respond, inputIfc, groups, datasetName, baseIri, ruleIds).Ok?
      <==> forall k :: 0 <= k < |Executed(groups, ruleIds)| ==> respond(Executed(groups, ruleIds)[k]).Rows?
    ensures var r := Valideer(literal, text, respond, inputIfc, groups, datasetName, baseIri, ruleIds);
      var cs := Executed(groups, ruleIds);
      r.Ok? ==> (|r.value.controles| == |cs|
        && forall k :: 0 <= k < |cs| ==> r.value.controles[k].name == cs[k].naam)
  {
    var cs := Executed(groups, ruleIds);
    var nodes := RunAll(literal, text, respond, cs);
    var r := Valideer(literal, text, respond, inputIfc, groups, datasetName, baseIri, ruleIds);
    assert r.Ok? <==> nodes.Ok?;
    if r.Ok? {
      assert r.value.controles == nodes.value;
      forall k | 0 <= k < |cs|
        ensures r.value.controles[k].name == cs[k].naam
      {
        assert nodes.value[k] == RunControle(literal, text, cs[k], respond(cs[k])).value;
      }
    } else {
      assert !nodes.Ok?;
      assert !forall k :: 0 <= k < |cs| ==> respond(cs[k]).Rows?;
      var k :| 0 <= k < |cs| && !respond(cs[k]).Rows?;
      assert !respond(Executed(groups, ruleIds)[k]).Rows?;
    }
  }

  /** The report as the program writes it: every node carries its check's message,
      and its `rpt:passed` says "true" exactly when that check's first row does NOT
      report success, so every node contradicts its own message. */
  lemma ValideerAsWrittenNegatesSuccess(text: Js -> string, respond: Controle -> Response, inputIfc: string,
                                        groups: seq<CheckGroup>, datasetName: string, baseIri: string,
                                        ruleIds: seq<string>, k: nat)
    requires Valideer(PassedAsWritten, text, respond, inputIfc, groups, datasetName, baseIri, ruleIds).Ok?
    requires k < |Executed(groups, ruleIds)|
    ensures var cs := Executed(groups, ruleIds);
      var node := Valideer(PassedAsWritten, text, respond, inputIfc, groups, datasetName, baseIri, ruleIds).value.controles[k];
      var row := FirstRow(respond(cs[k]).rows);
      && respond(cs[k]).Rows?
      && node.message == Message(text, cs[k], row)
      && (node.passed == "true" <==> !Truthy(Success(row)))
  {
    var cs := Executed(groups, ruleIds);
    var nodes := RunAll(PassedAsWritten, text, respond, cs);
    assert nodes.value[k] == RunControle(PassedAsWritten, text, cs[k], respond(cs[k])).value;
  }

  /** With the corrected literal every node's `rpt:passed` agrees with its message. */
  lemma ValideerCorrectedMatchesMessage(text: Js -> string, respond: Controle -> Response, inputIfc: string,
                                        groups: seq<CheckGroup>, datasetName: string, baseIri: string,
                                        ruleIds: seq<string>, k: nat)
    requires Valideer(Passed, text, respond, inputIfc, groups, datasetName, baseIri, ruleIds).Ok?
    requires k < |Executed(groups, ruleIds)|
    ensures var cs := Executed(groups, ruleIds);
      var node := Valideer(Passed, text, respond, inputIfc, groups, datasetName, baseIri, ruleIds).value.controles[k];
      var row := FirstRow(respond(cs[k]).rows);
      && respond(cs[k]).Rows?
      && node.message == Message(text, cs[k], row)
      && (node.passed == "true" <==> Truthy(Success(row)))
  {
    var cs := Executed(groups, ruleIds);
    var nodes := RunAll(Passed, text, respond, cs);
    assert nodes.value[k] == RunControle(Passed, text, cs[k], respond(cs[k])).value;
  }
}
