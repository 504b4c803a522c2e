/** The DTAP (development, testing, acceptance, production) choices: the account and
    dataset names of `src/utils/dtap.ts` and the account name of
    `src/helpers/getAccount.ts`. The ETL environment is a parameter. */
module Dtap {
  import opened Wrappers
  import opened Strings

  const Development := "Development"
  const Testing := "Testing"
  const Acceptance := "Acceptance"
  const Production := "Production"

  predicate Known(env: string) {
    env == Development || env == Testing || env == Acceptance || env == Production
  }

  const Unanticipated := "Unanticipated DTAP environment."

  /** `getAccount` of `src/utils/dtap.ts`: no account in development, `rotterdam` in
      the other three environments; any other environment throws. */
  function DtapAccount(env: string): (r: Result<Option<string>>)
    ensures r.Err? <==> !Known(env)
    ensures r.Err? ==> r.error == Thrown(Unanticipated)
    ensures r.Ok? ==> (r.value.None? <==> env == Development)
    ensures r.Ok? && r.value.Some? ==> r.value.value == "rotterdam"
  {
    if env == Development then Ok(None)
    else if env == Testing || env == Acceptance then Ok(Some("rotterdam"))
    else if env == Production then Ok(Some("rotterdam"))
    else Err(Thrown(Unanticipated))
  }

  /** The suffix `getDataset` appends in an environment it knows. */
  function Suffix(env: string): string {
    if env == Testing then "-testing" else if env == Acceptance then "-acceptance" else ""
  }

  /** `getDataset(name)`. */
  function GetDataset(env: string, name: string): (r: Result<string>)
    ensures r.Err? <==> !Known(env)
    ensures r.Err? ==> r.error == Thrown(Unanticipated)
    ensures r.Ok? ==> r.value == name + Suffix(env) && StartsWith(r.value, name)
  {
    if env == Development then Ok(name)
    else if env == Testing then Ok(name + "-testing")
    else if env == Acceptance then Ok(name + "-acceptance")
    else if env == Production then Ok(name)
    else Err(Thrown(Unanticipated))
  }

  /** Development and production keep the name; testing and acceptance mark it. */
  lemma GetDatasetPerEnvironment(name: string)
    ensures GetDataset(Development, name) == Ok(name)
    ensures GetDataset(Production, name) == Ok(name)
    ensures GetDataset(Testing, name) == Ok(name + "-testing")
    ensures GetDataset(Acceptance, name) == Ok(name + "-acceptance")
  {
  }

  /** The name is recovered by dropping the environment's suffix. */
  function DatasetBase(env: string, dataset: string): string
    requires |Suffix(env)| <= |dataset|
  {
    dataset[..|dataset| - |Suffix(env)|]
  }

  lemma DatasetBaseInverts(env: string, name: string)
    requires Known(env)
    ensures DatasetBase(env, GetDataset(env, name).value) == name
  {
    var d := GetDataset(env, name).value;
    assert d == name + Suffix(env);
    assert d[..|name|] == name;
  }

  /** In one environment, different names give different datasets. */
  lemma GetDatasetInjective(env: string, a: string, b: string)
    requires Known(env)
    requires GetDataset(env, a) == GetDataset(env, b)
    ensures a == b
  {
    DatasetBaseInverts(env, a);
    DatasetBaseInverts(env, b);
  }

  /** `getAccount` of `src/helpers/getAccount.ts`: no account in development,
      `rotterdam` in production, otherwise `rotterdam-` and the environment in lower
      case. It never throws. */
  function HelperAccount(env: string): (r: Option<string>)
    ensures r.None? <==> env == Development
    ensures env == Production ==> r == Some("rotterdam")
    ensures env != Development && env != Production ==>
      r.Some? && StartsWith(r.value, "rotterdam-") && r.value[|"rotterdam-"|..] == Lower(env)
  {
    if env == Development then None
    else if env == Production then Some("rotterdam")
    else
      var r := "rotterdam-" + Lower(env);
      assert r[..|"rotterdam-"|] == "rotterdam-";
      Some(r)
  }

  lemma HelperAccountOther(env: string)
    requires env != Development && env != Production
    ensures HelperAccount(env) == Some("rotterdam-" + Lower(env))
  {
  }

  /** The helper's accounts follow the DTAP table: `rotterdam-testing` and
      `rotterdam-acceptance`. */
  lemma HelperAccountTable()
    ensures HelperAccount(Testing) == Some("rotterdam-testing")
    ensures HelperAccount(Acceptance) == Some("rotterdam-acceptance")
  {
    HelperAccountTesting();
    HelperAccountAcceptance();
  }

  lemma HelperAccountTesting()
    ensures HelperAccount(Testing) == Some("rotterdam-testing")
  {
    HelperAccountLowered(Testing, "testing");
    assert "rotterdam-" + "testing" == "rotterdam-testing";
  }

  lemma HelperAccountAcceptance()
    ensures HelperAccount(Acceptance) == Some("rotterdam-acceptance")
  {
    HelperAccountLowered(Acceptance, "acceptance");
    assert "rotterdam-" + "acceptance" == "rotterdam-acceptance";
  }

  lemma HelperAccountLowered(env: string, lowered: string)
    requires env != Development && env != Production && Lower(env) == lowered
    ensures HelperAccount(env) == Some("rotterdam-" + lowered)
  {
    HelperAccountOther(env);
  }

  /** The two `getAccount` functions agree in development and production and differ in
      testing and acceptance; only the one in `src/utils/dtap.ts` throws. */
  lemma AccountsCompared(env: string)
    ensures env == Development || env == Production ==> DtapAccount(env) == Ok(HelperAccount(env))
    ensures env == Testing || env == Acceptance ==>
      DtapAccount(env).Ok? && DtapAccount(env).value != HelperAccount(env)
    ensures !Known(env) ==> DtapAccount(env).Err? && HelperAccount(env).Some?
  {
    HelperAccountTable();
  }
}
