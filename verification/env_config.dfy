/** Build-time selection of the deployment environment from the Git branch,
    and the constant table of public variables per environment. The two
    branch variables are read from the process environment and are passed in
    here: `None` for an unset variable. */
module EnvConfig {
  import opened Wrappers

  /** The public variables of one environment, by name. */
  type EnvVars = map<string, string>

  const ApiUrl: string := "NEXT_PUBLIC_API_URL"
  const EnvironmentName: string := "NEXT_PUBLIC_ENVIRONMENT"
  const AppUrl: string := "NEXT_PUBLIC_APP_URL"

  /** The names every table entry defines, and no others. */
  const VarNames: set<string> := {ApiUrl, EnvironmentName, AppUrl}

  const Main: string := "main"
  const Staging: string := "staging"
  const Develop: string := "develop"

  /** The table of environments, keyed by environment name. */
  const Environments: map<string, EnvVars> := map[
    Main := map[
      ApiUrl := "https://api.execute-api.eu-west-3.amazonaws.com/prod",
      EnvironmentName := "production",
      AppUrl := "https://console-pme-automation.amplifyapp.com"],
    Staging := map[
      ApiUrl := "https://staging-api.execute-api.eu-west-3.amazonaws.com/staging",
      EnvironmentName := "staging",
      AppUrl := "https://staging.console-pme-automation.amplifyapp.com"],
    Develop := map[
      ApiUrl := "https://dev-api.execute-api.eu-west-3.amazonaws.com/dev",
      EnvironmentName := "development",
      AppUrl := "https://dev.console-pme-automation.amplifyapp.com"]
  ]

  /** JavaScript truthiness of an environment variable: set and non-empty. */
  predicate Truthy(v: Option<string>)
  {
    v.Some? && |v.value| > 0
  }

  /** JavaScript `a || b`: `a` when truthy, `b` otherwise. */
  function JsOr(a: Option<string>, b: Option<string>): Option<string>
  {
    if Truthy(a) then a else b
  }

  /** `AMPLIFY_GIT_BRANCH || BRANCH || 'main'`. */
  function SelectBranch(amplifyGitBranch: Option<string>, branch: Option<string>): (b: string)
    ensures |b| > 0
    ensures Truthy(amplifyGitBranch) ==> b == amplifyGitBranch.value
    ensures !Truthy(amplifyGitBranch) && Truthy(branch) ==> b == branch.value
    ensures !Truthy(amplifyGitBranch) && !Truthy(branch) ==> b == Main
  {
    JsOr(JsOr(amplifyGitBranch, branch), Some(Main)).value
  }

  /** The environment for the selected branch: the three environment branches
      map to themselves and every other branch to `develop`. */
  function GetEnvironment(amplifyGitBranch: Option<string>, branch: Option<string>): (env: string)
    ensures env in Environments
    ensures SelectBranch(amplifyGitBranch, branch) in Environments ==>
              env == SelectBranch(amplifyGitBranch, branch)
    ensures env != Develop ==> env == SelectBranch(amplifyGitBranch, branch)
  {
    var b := SelectBranch(amplifyGitBranch, branch);
    if b == Main then Main
    else if b == Staging then Staging
    else if b == Develop then Develop
    else Develop
  }

  /** `table[key]`, absent when the key is not in the table. */
  function Lookup<K, V>(table: map<K, V>, key: K): (r: Option<V>)
    ensures r.Some? <==> key in table
    ensures r.Some? ==> r.value == table[key]
  {
    if key in table then Some(table[key]) else None
  }

  /** `environments[env] || environments.develop`, copied. */
  function GetEnvironmentVars(amplifyGitBranch: Option<string>, branch: Option<string>): (vars: EnvVars)
    ensures vars == Environments[GetEnvironment(amplifyGitBranch, branch)]
    ensures vars.Keys == VarNames
  {
    var env := GetEnvironment(amplifyGitBranch, branch);
    Lookup(Environments, env).GetOr(Environments[Develop])
  }

  /** The `environments.develop` fallback never fires: the selected
      environment is always a key of the table. */
  lemma FallbackUnreachable(amplifyGitBranch: Option<string>, branch: Option<string>)
    ensures Lookup(Environments, GetEnvironment(amplifyGitBranch, branch)).Some?
  {
  }

  /** Every entry defines exactly the three public variables, and its
      environment name matches its key. */
  lemma TableShape()
    ensures Environments.Keys == {Main, Staging, Develop}
    ensures forall k :: k in Environments ==> Environments[k].Keys == VarNames
    ensures Environments[Main][EnvironmentName] == "production"
    ensures Environments[Staging][EnvironmentName] == "staging"
    ensures Environments[Develop][EnvironmentName] == "development"
  {
  }

  /** Any non-empty branch name other than the three environments selects
      `develop`, whichever variable it came from. */
  lemma FeatureBranchSelectsDevelop(amplifyGitBranch: Option<string>, branch: Option<string>)
    requires SelectBranch(amplifyGitBranch, branch) !in {Main, Staging, Develop}
    ensures GetEnvironment(amplifyGitBranch, branch) == Develop
  {
  }

  /** Choosing an environment is idempotent: feeding the result back as the
      branch name selects the same environment. */
  lemma GetEnvironmentIdempotent(amplifyGitBranch: Option<string>, branch: Option<string>)
    ensures var env := GetEnvironment(amplifyGitBranch, branch);
            GetEnvironment(Some(env), None) == env
            && GetEnvironment(None, Some(env)) == env
  {
  }
}
