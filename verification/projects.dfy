/**
 * Desired-state extraction (class `Projects`): the validity rule for a project
 * configuration, the all-or-nothing extraction of session emails from
 * assumed-role ARNs, and the mapping from stack names to their `Users`.
 */
module Projects {
  import opened Wrappers
  import opened Text
  import opened Dicts
  import opened Arns
  import opened Roles

  const ConfigSuffix: string := "-project.yaml"
  const TemplateName: string := "tower-project.yaml"

  /** The `parameters` mapping of a configuration: which ARN lists are present. */
  datatype Parameters = Parameters(readWrite: Option<seq<string>>, readOnly: Option<seq<string>>)

  /** A loaded YAML configuration; `None` stands for a missing key. */
  datatype Config = Config(
    stackName: Option<string>,
    templatePath: Option<string>,
    parameters: Option<Parameters>)

  /** The configuration files among the `(directory, file name)` pairs of a directory walk, in walk order. */
  function ListProjects(walk: seq<(string, string)>): (files: seq<(string, string)>)
    ensures forall f :: f in files <==> f in walk && EndsWith(f.1, ConfigSuffix)
    ensures |files| <= |walk|
  {
    if walk == [] then []
    else (if EndsWith(walk[0].1, ConfigSuffix) then [walk[0]] else []) + ListProjects(walk[1..])
  }

  /**
   * The listing keeps walk order: the files of a walk made of two parts are
   * those of the first part followed by those of the second.
   */
  lemma {:induction false} ListProjectsAppend(a: seq<(string, string)>, b: seq<(string, string)>)
    ensures ListProjects(a + b) == ListProjects(a) + ListProjects(b)
  {
    if a == [] {
      assert a + b == b;
    } else {
      var head := if EndsWith(a[0].1, ConfigSuffix) then [a[0]] else [];
      assert (a + b)[0] == a[0] && (a + b)[1..] == a[1..] + b;
      ListProjectsAppend(a[1..], b);
      assert ListProjects(a + b) == head + (ListProjects(a[1..]) + ListProjects(b));
    }
  }

  /** `validate_config`: Ok exactly for a valid configuration, otherwise the error it raises. */
  function ValidateConfig(c: Config): (r: Result<(), Error>)
    ensures r.Ok? <==>
      && c.stackName.Some?
      && c.templatePath == Some(TemplateName)
      && c.parameters.Some?
      && (c.parameters.value.readWrite.Some? || c.parameters.value.readOnly.Some?)
    ensures r.Err? ==> r.error == InvalidTowerProject(c.stackName)
  {
    var isValid :=
      c.stackName.Some? && c.templatePath.Some? && c.templatePath.value == TemplateName && c.parameters.Some?
      && (c.parameters.value.readWrite.Some? || c.parameters.value.readOnly.Some?);
    if isValid then Ok(()) else Err(InvalidTowerProject(c.stackName))
  }

  /** Whether every entry of `ps` is present. */
  predicate AllSome<T>(ps: seq<Option<T>>) {
    forall i :: 0 <= i < |ps| ==> ps[i].Some?
  }

  /** Index of the first absent entry. */
  function FirstNone<T>(ps: seq<Option<T>>): (k: nat)
    requires !AllSome(ps)
    ensures k < |ps| && ps[k].None? && AllSome(ps[..k])
  {
    if ps[0].None? then 0
    else
      var k := 1 + FirstNone(ps[1..]);
      assert forall i :: 1 <= i < k ==> ps[..k][i] == ps[1..][..k - 1][i - 1];
      k
  }

  /** The values of entries that are all present. */
  function Values<T>(ps: seq<Option<T>>): (vs: seq<T>)
    requires AllSome(ps)
    ensures |vs| == |ps| && forall i :: 0 <= i < |ps| ==> ps[i] == Some(vs[i])
  {
    if ps == [] then [] else [ps[0].value] + Values(ps[1..])
  }

  /** `extract_emails`: the session email of every ARN, or the error for the first that does not match. */
  function ExtractEmails(arns: seq<string>): (r: Result<seq<string>, Error>)
    ensures r.Ok? <==> AllSome(Sessions(arns))
    ensures r.Ok? ==> |r.value| == |arns| && forall i :: 0 <= i < |arns| ==> Sessions(arns)[i] == Some(r.value[i])
    ensures r.Err? ==> r.error == InvalidArn(arns[FirstNone(Sessions(arns))])
  {
    var ps := Sessions(arns);
    if AllSome(ps) then Ok(Values(ps)) else Err(InvalidArn(arns[FirstNone(ps)]))
  }

  /** On success there is one email per ARN, in order, each the session-name group of a full match of its ARN. */
  lemma ExtractEmailsMatch(arns: seq<string>)
    requires ExtractEmails(arns).Ok?
    ensures |ExtractEmails(arns).value| == |arns|
    ensures forall i :: 0 <= i < |arns| ==> FullMatch(arns[i], ExtractEmails(arns).value[i])
  {
    var es := ExtractEmails(arns).value;
    forall i | 0 <= i < |arns| ensures FullMatch(arns[i], es[i]) {
      SessionsMatch(arns, i, es[i]);
    }
  }

  /**
   * On failure the error names the first ARN that matches for no session
   * name, every ARN before it matching.
   */
  lemma ExtractEmailsFail(arns: seq<string>)
    requires ExtractEmails(arns).Err?
    ensures var k := FirstNone(Sessions(arns));
      && ExtractEmails(arns).error == InvalidArn(arns[k])
      && !Matches(arns[k])
      && (forall j :: 0 <= j < k ==> Matches(arns[j]))
  {
    var ps := Sessions(arns);
    var k := FirstNone(ps);
    forall e ensures !FullMatch(arns[k], e) {
      SessionsMatch(arns, k, e);
    }
    forall j | 0 <= j < k ensures Matches(arns[j]) {
      assert ps[..k][j] == ps[j];
      SessionsMatch(arns, j, ps[j].value);
    }
  }

  /** The read-write ARNs of a configuration, none when the key is missing. */
  function ReadWriteArns(c: Config): seq<string>
    requires c.parameters.Some?
  {
    c.parameters.value.readWrite.GetOr([])
  }

  /** The read-only ARNs of a configuration, none when the key is missing. */
  function ReadOnlyArns(c: Config): seq<string>
    requires c.parameters.Some?
  {
    c.parameters.value.readOnly.GetOr([])
  }

  /**
   * One configuration's contribution: its stack name and users, read-write
   * ARNs giving maintainers and read-only ones viewers, and no other tier.
   */
  function ProjectUsers(c: Config): (r: Result<(string, Users), Error>)
    ensures r.Ok? <==>
      && ValidateConfig(c).Ok?
      && ExtractEmails(ReadWriteArns(c)).Ok?
      && ExtractEmails(ReadOnlyArns(c)).Ok?
    ensures r.Ok? ==>
      && r.value.0 == c.stackName.value
      && r.value.1 == Users([], [], ExtractEmails(ReadWriteArns(c)).value, [], ExtractEmails(ReadOnlyArns(c)).value)
    ensures r.Err? ==>
      r.error ==
        if ValidateConfig(c).Err? then ValidateConfig(c).error
        else if ExtractEmails(ReadWriteArns(c)).Err? then ExtractEmails(ReadWriteArns(c)).error
        else ExtractEmails(ReadOnlyArns(c)).error
  {
    var _ :- ValidateConfig(c);
    var maintainers :- ExtractEmails(ReadWriteArns(c));
    var viewers :- ExtractEmails(ReadOnlyArns(c));
    Ok((c.stackName.value, Users([], [], maintainers, [], viewers)))
  }

  /** The contribution of every configuration, in order. */
  function ProjectResults(configs: seq<Config>): (rs: seq<Result<(string, Users), Error>>)
    ensures |rs| == |configs|
  {
    if configs == [] then [] else [ProjectUsers(configs[0])] + ProjectResults(configs[1..])
  }

  lemma {:induction false} ProjectResultsAt(configs: seq<Config>, i: nat)
    requires i < |configs|
    ensures ProjectResults(configs)[i] == ProjectUsers(configs[i])
  {
    if i > 0 {
      ProjectResultsAt(configs[1..], i - 1);
      assert ProjectResults(configs)[i] == ProjectResults(configs[1..])[i - 1];
      assert configs[1..][i - 1] == configs[i];
    }
  }

  /** Whether every result of `rs` succeeded. */
  predicate AllOk<T>(rs: seq<Result<T, Error>>) {
    forall i :: 0 <= i < |rs| ==> rs[i].Ok?
  }

  /** Index of the first failed result. */
  function FirstErr<T>(rs: seq<Result<T, Error>>): (k: nat)
    requires !AllOk(rs)
    ensures k < |rs| && rs[k].Err? && AllOk(rs[..k])
  {
    if rs[0].Err? then 0
    else
      var k := 1 + FirstErr(rs[1..]);
      assert forall i :: 1 <= i < k ==> rs[..k][i] == rs[1..][..k - 1][i - 1];
      k
  }

  /** The values of results that all succeeded. */
  function OkValues<T>(rs: seq<Result<T, Error>>): (vs: seq<T>)
    requires AllOk(rs)
    ensures |vs| == |rs| && forall i :: 0 <= i < |rs| ==> rs[i] == Ok(vs[i])
  {
    if rs == [] then [] else [rs[0].value] + OkValues(rs[1..])
  }

  /** Assigns every pair of `pairs` into `d`, in order (`d[k] = v` in a loop). */
  function Insert(d: Dict<string, Users>, pairs: seq<(string, Users)>): (r: Dict<string, Users>)
    ensures DistinctKeys(d) ==> DistinctKeys(r)
    ensures forall k :: k in KeysOf(r) <==> k in KeysOf(d) || k in KeysOf(pairs)
    decreases |pairs|
  {
    if pairs == [] then d
    else
      PutKeepsDistinct(d, pairs[0].0, pairs[0].1);
      PutKeys(d, pairs[0].0, pairs[0].1);
      assert KeysOf(pairs) == [pairs[0].0] + KeysOf(pairs[1..]);
      Insert(Put(d, pairs[0].0, pairs[0].1), pairs[1..])
  }

  /** Keys that no pair assigns keep their value. */
  lemma {:induction false} InsertOther(d: Dict<string, Users>, pairs: seq<(string, Users)>, k: string)
    requires k !in KeysOf(pairs)
    ensures Get(Insert(d, pairs), k) == Get(d, k)
    decreases |pairs|
  {
    if pairs != [] {
      assert KeysOf(pairs) == [pairs[0].0] + KeysOf(pairs[1..]);
      InsertOther(Put(d, pairs[0].0, pairs[0].1), pairs[1..], k);
      PutGet(d, pairs[0].0, pairs[0].1, k);
    }
  }

  /** The last assignment to a key wins. */
  lemma {:induction false} InsertLastWins(d: Dict<string, Users>, pairs: seq<(string, Users)>, i: nat)
    requires i < |pairs| && forall j :: i < j < |pairs| ==> pairs[j].0 != pairs[i].0
    ensures Get(Insert(d, pairs), pairs[i].0) == Some(pairs[i].1)
    decreases |pairs|
  {
    var d' := Put(d, pairs[0].0, pairs[0].1);
    if i == 0 {
      assert pairs[0].0 !in KeysOf(pairs[1..]) by {
        var ks := KeysOf(pairs[1..]);
        forall j | 0 <= j < |ks| ensures ks[j] != pairs[0].0 {
          assert ks[j] == pairs[j + 1].0;
        }
      }
      InsertOther(d', pairs[1..], pairs[0].0);
      PutGet(d, pairs[0].0, pairs[0].1, pairs[0].0);
    } else {
      assert forall j :: i - 1 < j < |pairs[1..]| ==> pairs[1..][j] == pairs[j + 1];
      InsertLastWins(d', pairs[1..], i - 1);
    }
  }

  /** Whether every configuration of `configs` yields users. */
  predicate AllExtract(configs: seq<Config>) {
    forall i :: 0 <= i < |configs| ==> ProjectUsers(configs[i]).Ok?
  }

  lemma ProjectResultsOk(configs: seq<Config>)
    ensures AllOk(ProjectResults(configs)) <==> AllExtract(configs)
  {
    forall i | 0 <= i < |configs| {
      ProjectResultsAt(configs, i);
    }
  }

  /**
   * `extract_users`: the users of every stack, keyed by stack name, or the
   * error of the first configuration that fails.
   */
  function ExtractUsers(configs: seq<Config>): (r: Result<Dict<string, Users>, Error>)
    ensures r.Ok? <==> AllExtract(configs)
    ensures r.Ok? ==> DistinctKeys(r.value)
  {
    var rs := ProjectResults(configs);
    ProjectResultsOk(configs);
    if AllOk(rs) then Ok(Insert([], OkValues(rs))) else Err(rs[FirstErr(rs)].error)
  }

  /** A failure is the error of the first configuration that fails, every earlier one succeeding. */
  lemma ExtractUsersFail(configs: seq<Config>)
    requires ExtractUsers(configs).Err?
    ensures exists k ::
      && 0 <= k < |configs| && ProjectUsers(configs[k]).Err?
      && ExtractUsers(configs).error == ProjectUsers(configs[k]).error
      && AllExtract(configs[..k])
  {
    var rs := ProjectResults(configs);
    var k := FirstErr(rs);
    ProjectResultsAt(configs, k);
    forall j | 0 <= j < k ensures ProjectUsers(configs[..k][j]).Ok? {
      assert rs[..k][j] == rs[j];
      assert configs[..k][j] == configs[j];
      ProjectResultsAt(configs, j);
    }
    assert ExtractUsers(configs).error == ProjectUsers(configs[k]).error;
  }

  /** The stacks of the result are exactly the stacks of the configurations. */
  lemma ExtractUsersKeys(configs: seq<Config>, stack: string)
    requires ExtractUsers(configs).Ok?
    ensures stack in KeysOf(ExtractUsers(configs).value) <==>
      exists i :: 0 <= i < |configs| && ProjectUsers(configs[i]).value.0 == stack
  {
    var pairs := OkValues(ProjectResults(configs));
    var ks := KeysOf(pairs);
    if stack in ks {
      var i :| 0 <= i < |ks| && ks[i] == stack;
      ProjectResultsAt(configs, i);
    }
    if exists i :: 0 <= i < |configs| && ProjectUsers(configs[i]).value.0 == stack {
      var i :| 0 <= i < |configs| && ProjectUsers(configs[i]).value.0 == stack;
      ProjectResultsAt(configs, i);
      assert ks[i] == stack;
    }
  }

  /** The users recorded for a stack are those of the last configuration naming it. */
  lemma ExtractUsersLastWins(configs: seq<Config>, i: nat)
    requires ExtractUsers(configs).Ok? && i < |configs|
    requires forall j :: i < j < |configs| ==> ProjectUsers(configs[j]).value.0 != ProjectUsers(configs[i]).value.0
    ensures Get(ExtractUsers(configs).value, ProjectUsers(configs[i]).value.0) == Some(ProjectUsers(configs[i]).value.1)
  {
    var pairs := OkValues(ProjectResults(configs));
    ProjectResultsAt(configs, i);
    forall j | i < j < |pairs| ensures pairs[j].0 != pairs[i].0 {
      ProjectResultsAt(configs, j);
    }
    InsertLastWins([], pairs, i);
  }
}
