/** Which refusal a harness write gives: that of the first thing wrong with it, in a fixed order. */
module HarnessRefusals {
  import opened Wrappers
  import opened Budgets
  import opened Harnesses
  import opened HarnessLaws
  import opened HarnessWrites

  /** The first entry that is not accepted. */
  ghost predicate FirstBad<T>(accepted: T -> bool, xs: seq<T>, i: nat) {
    && i < |xs| && !accepted(xs[i])
    && forall k :: 0 <= k < i ==> accepted(xs[k])
  }

  /** A refusal names the first server entry not accepted, and what it lacks first. */
  ghost predicate ServerFault(servers: seq<McpServer>, e: HarnessError) {
    exists i: nat :: FirstBad(ServerAccepted, servers, i) && e ==
      (if Trimmed(servers[i].name) == "" then McpWithoutName(i)
       else if Trimmed(servers[i].url) == "" then McpWithoutUrl(i)
       else McpTransport(i))
  }

  /** A refusal of a folder names its first bad file; a manifest is looked for last. */
  ghost predicate BundleFault(i: nat, sk: Skill, e: HarnessError) {
    if |sk.files| == 0 then e == SkillEmpty(i)
    else if forall j :: 0 <= j < |sk.files| ==> FileAccepted(sk.files[j]) then e == SkillWithoutManifest(i)
    else
      exists j: nat :: FirstBad(FileAccepted, sk.files, j) && e ==
        (if StaysInside(sk.files[j].path) then SkillBase64(i, j) else SkillPath(i, j))
  }

  ghost predicate SkillFault(skills: seq<Skill>, e: HarnessError) {
    exists i: nat :: FirstBad(SkillAccepted, skills, i) &&
      (if Trimmed(skills[i].name) == "" then e == SkillWithoutName(i) else BundleFault(i, skills[i], e))
  }

  lemma {:induction false} RefusedForTheFirst<T>(normal: (nat, T) -> Result<T, HarnessError>, xs: seq<T>)
    returns (i: nat)
    requires Normalised(normal, xs).Failure?
    ensures i < |xs| && normal(i, xs[i]) == Failure(Normalised(normal, xs).error)
    ensures forall k: nat :: k < i ==> normal(k, xs[k]).Success?
    decreases |xs|
  {
    var n := |xs| - 1;
    if Normalised(normal, xs[..n]).Failure? {
      i := RefusedForTheFirst(normal, xs[..n]);
    } else {
      NormalisedByEntry(normal, xs[..n]);
      i := n;
    }
  }

  lemma ServersAreRefusedFor(servers: seq<McpServer>)
    requires Normalised(NormalServer, servers).Failure?
    ensures ServerFault(servers, Normalised(NormalServer, servers).error)
  {
    var i := RefusedForTheFirst(NormalServer, servers);
    forall k: nat | k <= i ensures NormalServer(k, servers[k]).Success? <==> ServerAccepted(servers[k]) {
      BlankIff(servers[k].name);
      BlankIff(servers[k].url);
    }
    BlankIff(servers[i].name);
    BlankIff(servers[i].url);
    assert FirstBad(ServerAccepted, servers, i);
  }

  lemma {:induction false} BadFileIsTheFirst(i: nat, files: seq<SkillFile>, n: nat) returns (j: nat)
    requires n <= |files| && BadFile(i, files, n).Some?
    ensures j < n && BadFile(i, files, n) == FileError(i, j, files[j])
    ensures forall k: nat :: k < j ==> FileError(i, k, files[k]).None?
    decreases n
  {
    if BadFile(i, files, n - 1).Some? {
      j := BadFileIsTheFirst(i, files, n - 1);
    } else {
      FilesAreGoodIff(i, files, n - 1);
      j := n - 1;
    }
  }

  lemma BundleIsRefusedFor(i: nat, sk: Skill)
    requires BadBundle(i, sk).Some?
    ensures BundleFault(i, sk, BadBundle(i, sk).value)
  {
    FilesAcceptedIff(i, sk.files);
    if BadFile(i, sk.files, |sk.files|).Some? {
      var j := BadFileIsTheFirst(i, sk.files, |sk.files|);
      AcceptedPathIff(sk.files[j].path);
      forall k: nat | k <= j ensures FileError(i, k, sk.files[k]).None? <==> FileAccepted(sk.files[k]) {
        FileAcceptedIff(i, k, sk.files[k]);
      }
      assert FirstBad(FileAccepted, sk.files, j);
    }
  }

  lemma SkillsAreRefusedFor(skills: seq<Skill>)
    requires Normalised(NormalSkill, skills).Failure?
    ensures SkillFault(skills, Normalised(NormalSkill, skills).error)
  {
    var i := RefusedForTheFirst(NormalSkill, skills);
    forall k: nat | k <= i ensures NormalSkill(k, skills[k]).Success? <==> SkillAccepted(skills[k]) {
      BlankIff(skills[k].name);
      BundleAcceptedIff(k, skills[k]);
    }
    assert FirstBad(SkillAccepted, skills, i);
    BlankIff(skills[i].name);
    if !Blank(skills[i].name) {
      BundleIsRefusedFor(i, skills[i]);
    }
  }

  /**
   The order of refusals: the default model, the first bad server entry, servers the runtime
   cannot be given, the first bad skill, and the step ceiling.
   */
  lemma RefusedForTheFirstThingWrong(c: HarnessConfig, spec: HarnessSpec, base: Option<Base>)
    requires Written(c, spec, base).Failure?
    ensures var e := Written(c, spec, base).error;
            if base.Some? && spec.defaultModel != "" && |base.value.models| > 0
               && spec.defaultModel !in base.value.models
            then e == UnsupportedModel
            else if exists i :: 0 <= i < |spec.mcpServers| && !ServerAccepted(spec.mcpServers[i])
            then ServerFault(spec.mcpServers, e)
            else if base.Some? && |spec.mcpServers| > 0 && !base.value.deliversMcp
            then e == McpUndeliverable
            else if exists i :: 0 <= i < |spec.skills| && !SkillAccepted(spec.skills[i])
            then SkillFault(spec.skills, e)
            else e == if spec.maxStep.Some? && spec.maxStep.value < 0 then NegativeMaxStep else MaxStepNotEnforceable
  {
    ServersAcceptedIff(spec.mcpServers);
    SkillsAcceptedIff(spec.skills);
    NormalisedByEntry(NormalServer, spec.mcpServers);
    if Normalised(NormalServer, spec.mcpServers).Failure? {
      ServersAreRefusedFor(spec.mcpServers);
    }
    if Normalised(NormalSkill, spec.skills).Failure? {
      SkillsAreRefusedFor(spec.skills);
    }
  }
}
