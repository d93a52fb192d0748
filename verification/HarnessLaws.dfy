/** What reading a harness and writing it back does, and what every write leaves behind. */
module HarnessLaws {
  import opened Wrappers
  import opened Budgets
  import opened Harnesses

  // ---------------------------------------------------------------- normal forms

  predicate IsNormalServer(m: McpServer) {
    !Blank(m.name) && !Blank(m.url) && (m.transport == "http" || m.transport == "sse") && m.enabled.Some?
  }

  predicate IsNormalSkill(sk: Skill) {
    !Blank(sk.name) && BadBundle(0, sk).None? && sk.enabled.Some?
  }

  predicate IsNormal(c: HarnessConfig) {
    && (forall i :: 0 <= i < |c.mcpServers| ==> IsNormalServer(c.mcpServers[i]))
    && (forall i :: 0 <= i < |c.skills| ==> IsNormalSkill(c.skills[i]))
  }

  /** A list normalises entry by entry, and fails if any entry does. */
  lemma {:induction false} NormalisedByEntry<T>(normal: (nat, T) -> Result<T, HarnessError>, xs: seq<T>)
    ensures var r := Normalised(normal, xs);
            && (r.Success? <==> forall i :: 0 <= i < |xs| ==> normal(i, xs[i]).Success?)
            && (r.Success? ==> |r.value| == |xs| && forall i :: 0 <= i < |xs| ==>
                  normal(i, xs[i]) == Success(r.value[i]))
    decreases |xs|
  {
    if |xs| > 0 {
      var n := |xs| - 1;
      var front := xs[..n];
      NormalisedByEntry(normal, front);
      assert forall i :: 0 <= i < n ==> front[i] == xs[i];
      if Normalised(normal, front).Failure? {
        var i :| 0 <= i < n && normal(i, front[i]).Failure?;
        assert normal(i, xs[i]).Failure?;
      } else if normal(n, xs[n]).Success? {
        var done := Normalised(normal, front).value;
        assert Normalised(normal, xs).value == done + [normal(n, xs[n]).value];
      }
    }
  }

  lemma {:induction false} BadFileAnywhere(i: nat, j: nat, files: seq<SkillFile>, n: nat)
    requires n <= |files|
    ensures BadFile(i, files, n).None? <==> BadFile(j, files, n).None?
    decreases n
  {
    if n > 0 {
      BadFileAnywhere(i, j, files, n - 1);
    }
  }

  lemma NormalisedStays<T>(normal: (nat, T) -> Result<T, HarnessError>, xs: seq<T>)
    ensures Normalised(normal, xs) == Success(xs) <==> forall i :: 0 <= i < |xs| ==> normal(i, xs[i]) == Success(xs[i])
  {
    NormalisedByEntry(normal, xs);
    if forall i :: 0 <= i < |xs| ==> normal(i, xs[i]) == Success(xs[i]) {
      assert Normalised(normal, xs).value == xs;
    }
  }

  lemma NormalServersStay(servers: seq<McpServer>)
    ensures Normalised(NormalServer, servers) == Success(servers)
            <==> forall i :: 0 <= i < |servers| ==> IsNormalServer(servers[i])
  {
    NormalisedStays(NormalServer, servers);
    assert forall i :: 0 <= i < |servers| ==>
      (NormalServer(i, servers[i]) == Success(servers[i]) <==> IsNormalServer(servers[i]));
  }

  lemma NormalSkillStays(i: nat, sk: Skill)
    ensures NormalSkill(i, sk) == Success(sk) <==> IsNormalSkill(sk)
  {
    BadFileAnywhere(i, 0, sk.files, |sk.files|);
  }

  lemma NormalSkillsStay(skills: seq<Skill>)
    ensures Normalised(NormalSkill, skills) == Success(skills)
            <==> forall i :: 0 <= i < |skills| ==> IsNormalSkill(skills[i])
  {
    NormalisedStays(NormalSkill, skills);
    forall i | 0 <= i < |skills|
      ensures NormalSkill(i, skills[i]) == Success(skills[i]) <==> IsNormalSkill(skills[i])
    {
      NormalSkillStays(i, skills[i]);
    }
  }

  /** Normalising is idempotent: what it gives, it gives back. */
  lemma NormalisingTwiceIsOnce(servers: seq<McpServer>, skills: seq<Skill>)
    ensures var r := Normalised(NormalServer, servers);
            r.Success? ==> Normalised(NormalServer, r.value) == r
    ensures var r := Normalised(NormalSkill, skills);
            r.Success? ==> Normalised(NormalSkill, r.value) == r
  {
    ServersComeOutNormal(servers);
    SkillsComeOutNormal(skills);
    if Normalised(NormalServer, servers).Success? {
      NormalServersStay(Normalised(NormalServer, servers).value);
    }
    if Normalised(NormalSkill, skills).Success? {
      NormalSkillsStay(Normalised(NormalSkill, skills).value);
    }
  }

  lemma ServersComeOutNormal(servers: seq<McpServer>)
    ensures var r := Normalised(NormalServer, servers);
            r.Success? ==> forall i :: 0 <= i < |r.value| ==> IsNormalServer(r.value[i])
  {
    NormalisedByEntry(NormalServer, servers);
  }

  lemma SkillsComeOutNormal(skills: seq<Skill>)
    ensures var r := Normalised(NormalSkill, skills);
            r.Success? ==> forall i :: 0 <= i < |r.value| ==> IsNormalSkill(r.value[i])
  {
    NormalisedByEntry(NormalSkill, skills);
    var r := Normalised(NormalSkill, skills);
    if r.Success? {
      forall i | 0 <= i < |r.value| ensures IsNormalSkill(r.value[i]) {
        assert NormalSkill(i, skills[i]) == Success(r.value[i]);
        BadFileAnywhere(i, 0, r.value[i].files, |r.value[i].files|);
      }
    }
  }

  /** Whatever a create or a write stores is normal, and names the harness unless its runtime has no name for it. */
  lemma WhatIsWrittenIsNormal(existing: HarnessConfig, spec: HarnessSpec, base: Option<Base>)
    ensures Applied(spec, existing, base).Success? ==> IsNormal(Applied(spec, existing, base).value)
    ensures Written(existing, spec, base).Success? ==>
              var c := Written(existing, spec, base).value;
              && IsNormal(c) && c.id == existing.id && c.base == existing.base && c.createdAt == existing.createdAt
              && (c.name == "" ==> base.None? || base.value.name == "")
  {
    ServersComeOutNormal(spec.mcpServers);
    SkillsComeOutNormal(spec.skills);
  }

  // ---------------------------------------------------------------- credentials

  lemma {:induction false} StoredUnder(servers: seq<McpServer>, name: string)
    ensures var a := LastAuth(servers, name);
            if a == "" then forall i :: 0 <= i < |servers| && servers[i].name == name ==> servers[i].auth == ""
            else exists i :: 0 <= i < |servers| && servers[i].name == name && servers[i].auth == a
    decreases |servers|
  {
    if |servers| > 0 {
      var front := servers[..|servers| - 1];
      StoredUnder(front, name);
      var last := servers[|servers| - 1];
      if last.name == name && last.auth != "" {
        assert servers[|servers| - 1].name == name;
      } else if LastAuth(front, name) != "" {
        var i :| 0 <= i < |front| && front[i].name == name && front[i].auth == LastAuth(front, name);
        assert servers[i].name == name && servers[i].auth == LastAuth(servers, name);
      } else {
        assert forall i :: 0 <= i < |front| ==> servers[i] == front[i];
      }
    }
  }

  /** Entries of one name carry one credential. */
  predicate SameNameSameAuth(servers: seq<McpServer>) {
    forall i, j :: 0 <= i < |servers| && 0 <= j < |servers| && servers[i].name == servers[j].name ==>
      servers[i].auth == servers[j].auth
  }

  predicate DistinctNames(servers: seq<McpServer>) {
    forall i, j :: 0 <= i < j < |servers| ==> servers[i].name != servers[j].name
  }

  /** No entry without a credential shares its name with one that has one. */
  predicate NoBareNamesake(servers: seq<McpServer>) {
    forall i, j :: 0 <= i < |servers| && 0 <= j < |servers| && servers[i].name == servers[j].name ==>
      servers[i].auth == "" ==> servers[j].auth == ""
  }

  /** What a client was never shown comes back to it if and only if names tell credentials apart. */
  lemma BlankedAndCarriedBack(servers: seq<McpServer>)
    ensures Carried(WithoutCredentials(servers), servers) == servers <==> SameNameSameAuth(servers)
  {
    var back := Carried(WithoutCredentials(servers), servers);
    forall i | 0 <= i < |servers| ensures back[i] == servers[i].(auth := LastAuth(servers, servers[i].name)) {
    }
    if SameNameSameAuth(servers) {
      forall i | 0 <= i < |servers| ensures back[i] == servers[i] {
        StoredUnder(servers, servers[i].name);
      }
      assert back == servers;
    }
    if back == servers {
      forall i, j | 0 <= i < |servers| && 0 <= j < |servers| && servers[i].name == servers[j].name
        ensures servers[i].auth == servers[j].auth
      {
        assert back[i] == servers[i] && back[j] == servers[j];
      }
    }
  }

  lemma SentBackWithCredentials(servers: seq<McpServer>)
    ensures Carried(servers, servers) == servers <==> NoBareNamesake(servers)
  {
    var back := Carried(servers, servers);
    forall i | 0 <= i < |servers|
      ensures servers[i].auth == "" ==> back[i] == servers[i].(auth := LastAuth(servers, servers[i].name))
    {
    }
    if NoBareNamesake(servers) {
      forall i | 0 <= i < |servers| ensures back[i] == servers[i] {
        StoredUnder(servers, servers[i].name);
      }
      assert back == servers;
    }
    if back == servers {
      forall i, j | && 0 <= i < |servers| && 0 <= j < |servers| && servers[i].name == servers[j].name
                    && servers[i].auth == ""
        ensures servers[j].auth == ""
      {
        assert back[i] == servers[i];
        StoredUnder(servers, servers[i].name);
      }
    }
  }

  /** No view tells one credential from another: configurations that differ only there are shown alike. */
  lemma ViewsShowNoCredential(a: HarnessConfig, b: HarnessConfig, base: Option<Base>)
    requires a.(mcpServers := []) == b.(mcpServers := [])
    requires |a.mcpServers| == |b.mcpServers|
    requires forall i :: 0 <= i < |a.mcpServers| ==> a.mcpServers[i].(auth := "") == b.mcpServers[i].(auth := "")
    ensures Info(a, base) == Info(b, base)
    ensures forall i :: 0 <= i < |a.mcpServers| ==> Info(a, base).config.mcpServers[i].auth == ""
  {
    assert WithoutCredentials(a.mcpServers) == WithoutCredentials(b.mcpServers);
    assert a == b.(mcpServers := a.mcpServers);
  }

  // ---------------------------------------------------------- read and write back

  /** The parts of a stored harness that a write would refuse or rewrite, whoever sends them. */
  predicate StillWritable(c: HarnessConfig, model: string, base: Option<Base>) {
    && IsNormal(c)
    && (base.Some? ==> AcceptsModel(base.value, model))
    && (base.Some? && |c.mcpServers| > 0 ==> base.value.deliversMcp)
    && (base.Some? && c.name == "" ==> base.value.name == "")
  }

  function ShownModel(c: HarnessConfig, base: Option<Base>): string {
    if c.defaultModel == "" && base.Some? then base.value.defaultModel else c.defaultModel
  }

  lemma BlankingKeepsNormality(servers: seq<McpServer>)
    ensures (Normalised(NormalServer, WithoutCredentials(servers)) == Success(WithoutCredentials(servers)))
            <==> (forall i :: 0 <= i < |servers| ==> IsNormalServer(servers[i]))
    ensures Normalised(NormalServer, WithoutCredentials(servers)).Success? ==>
              |Normalised(NormalServer, WithoutCredentials(servers)).value| == |servers|
  {
    NormalServersStay(WithoutCredentials(servers));
    NormalisedByEntry(NormalServer, WithoutCredentials(servers));
    assert forall i :: 0 <= i < |servers| ==>
      IsNormalServer(servers[i]) == IsNormalServer(WithoutCredentials(servers)[i]);
  }

  /**
   Reading a harness and putting it back unchanged leaves it exactly as it was stored,
   credentials included, if and only if it is still writable as it is shown, its default model
   is its own and not the runtime's shown in its place, and entries of one name carry one
   credential.
   */
  lemma GetThenPutIsIdentityIff(c: HarnessConfig, base: Option<Base>)
    ensures Written(c, SpecOf(Info(c, base).config), base) == Success(c)
            <==> && StillWritable(c, ShownModel(c, base), base)
                 && ShownModel(c, base) == c.defaultModel
                 && SameNameSameAuth(c.mcpServers)
  {
    var spec := SpecOf(Info(c, base).config);
    var shown := WithoutCredentials(c.mcpServers);
    WritesBackIff(c, spec, base);
    BlankingKeepsNormality(c.mcpServers);
    BlankedAndCarriedBack(c.mcpServers);
    NormalSkillsStay(c.skills);
    if Normalised(NormalServer, shown).Success? {
      CarriedBackMeansNormal(shown, c.mcpServers);
    }
  }

  /** When a write that names what is stored, but for the default model and the entries, stores it again. */
  lemma WritesBackIff(c: HarnessConfig, spec: HarnessSpec, base: Option<Base>)
    requires spec.systemPrompt == c.systemPrompt && spec.disabledTools == c.disabledTools && spec.skills == c.skills
    requires spec.maxStep == c.maxStep && spec.timeoutSeconds == c.timeoutSeconds && spec.name == c.name
    ensures Written(c, spec, base) == Success(c)
            <==> && (base.Some? ==> AcceptsModel(base.value, spec.defaultModel)) && spec.defaultModel == c.defaultModel
                 && Normalised(NormalServer, spec.mcpServers).Success?
                 && Carried(Normalised(NormalServer, spec.mcpServers).value, c.mcpServers) == c.mcpServers
                 && (base.Some? && |c.mcpServers| > 0 ==> base.value.deliversMcp)
                 && Normalised(NormalSkill, c.skills) == Success(c.skills)
                 && Named(c.name, base) == c.name
  {
  }

  /** Entries whose normal form, credentials restored, is what is stored were normal as they were stored. */
  lemma CarriedBackMeansNormal(shown: seq<McpServer>, servers: seq<McpServer>)
    requires shown == WithoutCredentials(servers) && Normalised(NormalServer, shown).Success?
    ensures Carried(Normalised(NormalServer, shown).value, servers) == servers
            ==> Normalised(NormalServer, shown) == Success(shown)
  {
    ServersComeOutNormal(shown);
    var n := Normalised(NormalServer, shown).value;
    if Carried(n, servers) == servers {
      CarryingIsNormal(n, servers);
      BlankingKeepsNormality(servers);
    }
  }

  /** Restoring a credential never changes whether an entry is normal. */
  lemma CarryingIsNormal(next: seq<McpServer>, previous: seq<McpServer>)
    requires forall i :: 0 <= i < |next| ==> IsNormalServer(next[i])
    ensures forall i :: 0 <= i < |next| ==> IsNormalServer(Carried(next, previous)[i])
  {
  }

  lemma SentAsStored(servers: seq<McpServer>)
    ensures var r := Normalised(NormalServer, servers);
            (r.Success? && Carried(r.value, servers) == servers)
            <==> (forall i :: 0 <= i < |servers| ==> IsNormalServer(servers[i])) && NoBareNamesake(servers)
  {
    SentBackWithCredentials(servers);
    NormalServersStay(servers);
    ServersComeOutNormal(servers);
    if Normalised(NormalServer, servers).Success? {
      CarryingIsNormal(Normalised(NormalServer, servers).value, servers);
    }
  }

  /** A patch that sends nothing changes nothing, under the like condition on what is stored. */
  lemma EmptyPatchIsIdentityIff(c: HarnessConfig, base: Option<Base>)
    ensures Written(c, Onto(EMPTY_PATCH, SpecOf(c)), base) == Success(c)
            <==> StillWritable(c, c.defaultModel, base) && NoBareNamesake(c.mcpServers)
  {
    assert Onto(EMPTY_PATCH, SpecOf(c)) == SpecOf(c);
    WritesBackIff(c, SpecOf(c), base);
    SentAsStored(c.mcpServers);
    NormalSkillsStay(c.skills);
  }

  lemma DistinctNamesAreEnough(servers: seq<McpServer>)
    requires DistinctNames(servers)
    ensures SameNameSameAuth(servers) && NoBareNamesake(servers)
  {
  }

  /**
   The law a client relies on. Of a harness whose entries have distinct names, whose default
   model is set, and which could be written as it is stored, neither reading it and putting it
   back nor a patch that sends nothing changes anything, credentials included.
   */
  lemma DistinctNamesRoundTrip(c: HarnessConfig, base: Option<Base>)
    requires DistinctNames(c.mcpServers) && StillWritable(c, c.defaultModel, base)
    ensures c.defaultModel != "" ==> Written(c, SpecOf(Info(c, base).config), base) == Success(c)
    ensures Written(c, Onto(EMPTY_PATCH, SpecOf(c)), base) == Success(c)
  {
    DistinctNamesAreEnough(c.mcpServers);
    GetThenPutIsIdentityIff(c, base);
    EmptyPatchIsIdentityIff(c, base);
  }

  /** A patch that is accepted changes no field it does not send. */
  lemma PatchChangesOnlyWhatItSends(c: HarnessConfig, p: HarnessPatch, base: Option<Base>)
    requires StillWritable(c, c.defaultModel, base) && NoBareNamesake(c.mcpServers)
    requires Written(c, Onto(p, SpecOf(c)), base).Success?
    ensures var c' := Written(c, Onto(p, SpecOf(c)), base).value;
            && c'.id == c.id && c'.base == c.base && c'.createdAt == c.createdAt
            && (p.name.None? ==> c'.name == c.name)
            && (p.defaultModel.None? ==> c'.defaultModel == c.defaultModel)
            && (p.systemPrompt.None? ==> c'.systemPrompt == c.systemPrompt)
            && (p.mcpServers.None? ==> c'.mcpServers == c.mcpServers)
            && (p.skills.None? ==> c'.skills == c.skills)
            && (p.disabledTools.None? ==> c'.disabledTools == c.disabledTools)
            && (p.maxStep.None? ==> c'.maxStep == c.maxStep)
            && (p.timeoutSeconds.None? ==> c'.timeoutSeconds == c.timeoutSeconds)
  {
    WrittenFields(c, Onto(p, SpecOf(c)), base);
    SentBackWithCredentials(c.mcpServers);
    NormalServersStay(c.mcpServers);
    NormalSkillsStay(c.skills);
  }

  lemma WrittenFields(c: HarnessConfig, spec: HarnessSpec, base: Option<Base>)
    requires Written(c, spec, base).Success?
    ensures Normalised(NormalServer, spec.mcpServers).Success? && Normalised(NormalSkill, spec.skills).Success?
    ensures Written(c, spec, base).value ==
              HarnessConfig(c.id, Named(spec.name, base), c.base, spec.defaultModel, spec.systemPrompt,
                            Carried(Normalised(NormalServer, spec.mcpServers).value, c.mcpServers),
                            Normalised(NormalSkill, spec.skills).value, spec.disabledTools, spec.maxStep,
                            spec.timeoutSeconds, c.createdAt)
  {
  }

  lemma {:induction false} RefusedByAnEntry<T>(normal: (nat, T) -> Result<T, HarnessError>, xs: seq<T>)
    requires Normalised(normal, xs).Failure?
    ensures exists i: nat :: i < |xs| && normal(i, xs[i]) == Failure(Normalised(normal, xs).error)
    decreases |xs|
  {
    var n := |xs| - 1;
    var front := xs[..n];
    if Normalised(normal, front).Failure? {
      RefusedByAnEntry(normal, front);
      var i: nat :| i < |front| && normal(i, front[i]) == Failure(Normalised(normal, front).error);
      assert normal(i, xs[i]) == Failure(Normalised(normal, xs).error);
    } else {
      assert normal(n, xs[n]) == Failure(Normalised(normal, xs).error);
    }
  }

  lemma {:induction false} BadFileError(i: nat, files: seq<SkillFile>, n: nat)
    requires n <= |files|
    ensures BadFile(i, files, n).Some? ==>
          BadFile(i, files, n).value.SkillPath? || BadFile(i, files, n).value.SkillBase64?
    decreases n
  {
    if n > 0 {
      BadFileError(i, files, n - 1);
    }
  }

  /** A ceiling is only ever the reason for a refusal when the write changes it to one that cannot be held. */
  lemma CeilingRefusedOnlyWhenChanged(c: HarnessConfig, spec: HarnessSpec, base: Option<Base>)
    ensures Written(c, spec, base) in {Failure(NegativeMaxStep), Failure(MaxStepNotEnforceable)} ==>
              && spec.maxStep.Some? && spec.maxStep != c.maxStep
              && (spec.maxStep.value < 0 || (base.Some? && Unholdable(spec.maxStep.value, base.value.edge)))
  {
    if Normalised(NormalServer, spec.mcpServers).Failure? {
      RefusedByAnEntry(NormalServer, spec.mcpServers);
    }
    if Normalised(NormalSkill, spec.skills).Failure? {
      RefusedByAnEntry(NormalSkill, spec.skills);
      var i: nat :| && i < |spec.skills|
                    && NormalSkill(i, spec.skills[i]) == Failure(Normalised(NormalSkill, spec.skills).error);
      BadFileError(i, spec.skills[i].files, |spec.skills[i].files|);
    }
  }

  /** And what a write stores is a ceiling that was there already, or one that can be held. */
  lemma StoredCeilingCanBeHeld(c: HarnessConfig, spec: HarnessSpec, base: Option<Base>)
    ensures Written(c, spec, base).Success? ==>
              var m := Written(c, spec, base).value.maxStep;
              || m == c.maxStep || m.None?
              || (m.value >= 0 && (base.Some? ==> !Unholdable(m.value, base.value.edge)))
  {
    if Written(c, spec, base).Success? {
      WrittenFields(c, spec, base);
    }
  }

  /** The credential of the last entry of a name, empty when that entry is bare or there is none. */
  function LastOf(servers: seq<McpServer>, name: string): string {
    if |servers| == 0 then ""
    else
      var m := servers[|servers| - 1];
      if m.name == name then m.auth else LastOf(servers[..|servers| - 1], name)
  }

  /**
   An update settles at once: under a name sent bare anywhere, either nothing is stored and
   nothing else is sent, or the last entry sent is bare too or repeats what is stored.
   */
  predicate SettlesAtOnce(sent: seq<McpServer>, stored: seq<McpServer>) {
    forall i :: 0 <= i < |sent| && sent[i].auth == "" ==> SettledUnder(sent, stored, sent[i].name)
  }

  predicate SettledUnder(sent: seq<McpServer>, stored: seq<McpServer>, name: string) {
    var p := LastAuth(stored, name);
    if p == "" then forall j :: 0 <= j < |sent| && sent[j].name == name ==> sent[j].auth == ""
    else LastOf(sent, name) == "" || LastOf(sent, name) == p
  }

  /**
   Sending the same update twice is sending it once, if and only if it settles at once, which
   is a condition on what is sent and what is stored before the first. Distinct names are
   enough; without them the second update can hand one entry's credential to another.
   */
  lemma PutTwiceIsOnceIff(c: HarnessConfig, spec: HarnessSpec, base: Option<Base>, c': HarnessConfig)
    requires Written(c, spec, base) == Success(c')
    ensures Written(c', spec, base) == Success(c') <==> SettlesAtOnce(spec.mcpServers, c.mcpServers)
    ensures DistinctNames(spec.mcpServers) ==> Written(c', spec, base) == Success(c')
  {
    var sent := spec.mcpServers;
    PutAgain(c, spec, base, c');
    var n := Normalised(NormalServer, sent).value;
    NormalKeepsNameAndAuth(sent);
    SettlesIff(n, c.mcpServers);
    SettlesAlike(sent, n, c.mcpServers);
    if DistinctNames(sent) {
      DistinctNamesSettle(sent, c.mcpServers);
    }
  }

  lemma NormalKeepsNameAndAuth(sent: seq<McpServer>)
    requires Normalised(NormalServer, sent).Success?
    ensures var n := Normalised(NormalServer, sent).value;
            |n| == |sent| && forall i :: 0 <= i < |sent| ==> n[i].auth == sent[i].auth && n[i].name == sent[i].name
  {
    NormalisedByEntry(NormalServer, sent);
    var n := Normalised(NormalServer, sent).value;
    forall i | 0 <= i < |sent| ensures n[i].auth == sent[i].auth && n[i].name == sent[i].name {
      assert NormalServer(i, sent[i]) == Success(n[i]);
    }
  }

  lemma {:induction false} LastOfAlike(a: seq<McpServer>, b: seq<McpServer>, name: string)
    requires |a| == |b| && forall i :: 0 <= i < |a| ==> a[i].auth == b[i].auth && a[i].name == b[i].name
    ensures LastOf(a, name) == LastOf(b, name)
    decreases |a|
  {
    if |a| > 0 {
      LastOfAlike(a[..|a| - 1], b[..|b| - 1], name);
    }
  }

  /** Names and credentials alone decide whether an update settles. */
  lemma SettlesAlike(a: seq<McpServer>, b: seq<McpServer>, stored: seq<McpServer>)
    requires |a| == |b| && forall i :: 0 <= i < |a| ==> a[i].auth == b[i].auth && a[i].name == b[i].name
    ensures SettlesAtOnce(a, stored) <==> SettlesAtOnce(b, stored)
  {
    forall i | 0 <= i < |a| ensures LastOf(a, a[i].name) == LastOf(b, b[i].name) {
      LastOfAlike(a, b, a[i].name);
    }
  }

  lemma {:induction false} LastOfIsSent(servers: seq<McpServer>, i: nat)
    requires i < |servers|
    ensures exists j :: i <= j < |servers| && servers[j].name == servers[i].name
                        && servers[j].auth == LastOf(servers, servers[i].name)
    decreases |servers|
  {
    var n := |servers| - 1;
    if servers[n].name == servers[i].name {
      assert servers[n].auth == LastOf(servers, servers[i].name);
    } else {
      var front := servers[..n];
      LastOfIsSent(front, i);
      var j :| i <= j < n && front[j].name == front[i].name && front[j].auth == LastOf(front, front[i].name);
      assert servers[j].name == servers[i].name && servers[j].auth == LastOf(servers, servers[i].name);
    }
  }

  lemma DistinctNamesSettle(sent: seq<McpServer>, stored: seq<McpServer>)
    requires DistinctNames(sent)
    ensures SettlesAtOnce(sent, stored)
  {
    forall i | 0 <= i < |sent| && sent[i].auth == "" ensures LastOf(sent, sent[i].name) == "" {
      LastOfIsSent(sent, i);
    }
  }

  /** Under a name with nothing stored, a second update finds what the first one sent. */
  lemma {:induction false} LastOfCarriedAnew(sent: seq<McpServer>, stored: seq<McpServer>, name: string)
    requires LastAuth(stored, name) == ""
    ensures LastAuth(Carried(sent, stored), name) == LastAuth(sent, name)
    decreases |sent|
  {
    if |sent| > 0 {
      var front := sent[..|sent| - 1];
      LastOfCarriedAnew(front, stored, name);
      assert Carried(sent, stored)[..|sent| - 1] == Carried(front, stored);
    }
  }

  /** Under a name with something stored, it finds what the last entry sent ended up with. */
  lemma {:induction false} LastOfCarriedOver(sent: seq<McpServer>, stored: seq<McpServer>, name: string, i: nat)
    requires LastAuth(stored, name) != "" && i < |sent| && sent[i].name == name
    ensures LastAuth(Carried(sent, stored), name) ==
              if LastOf(sent, name) == "" then LastAuth(stored, name) else LastOf(sent, name)
    decreases |sent|
  {
    var n := |sent| - 1;
    if sent[n].name != name {
      LastOfCarriedOver(sent[..n], stored, name, i);
      assert Carried(sent, stored)[..n] == Carried(sent[..n], stored);
    }
  }

  lemma PutAgain(c: HarnessConfig, spec: HarnessSpec, base: Option<Base>, c': HarnessConfig)
    requires Written(c, spec, base) == Success(c')
    ensures Normalised(NormalServer, spec.mcpServers).Success?
    ensures var n := Normalised(NormalServer, spec.mcpServers).value;
            && c'.mcpServers == Carried(n, c.mcpServers)
            && (Written(c', spec, base) == Success(c') <==> Carried(n, c'.mcpServers) == c'.mcpServers)
  {
  }

  lemma SettledMeansFound(sent: seq<McpServer>, stored: seq<McpServer>, i: nat)
    requires i < |sent|
    ensures LastAuth(Carried(sent, stored), sent[i].name) == LastAuth(stored, sent[i].name)
            <==> SettledUnder(sent, stored, sent[i].name)
  {
    if LastAuth(stored, sent[i].name) == "" {
      LastOfCarriedAnew(sent, stored, sent[i].name);
      StoredUnder(sent, sent[i].name);
    } else {
      LastOfCarriedOver(sent, stored, sent[i].name, i);
    }
  }

  /** A second carrying changes nothing exactly when the first one settled what was sent. */
  lemma SettlesIff(sent: seq<McpServer>, stored: seq<McpServer>)
    ensures var once := Carried(sent, stored);
            Carried(sent, once) == once <==> SettlesAtOnce(sent, stored)
  {
    var once := Carried(sent, stored);
    var twice := Carried(sent, once);
    forall i | 0 <= i < |sent| && sent[i].auth == ""
      ensures twice[i] == once[i] <==> SettledUnder(sent, stored, sent[i].name)
    {
      SettledMeansFound(sent, stored, i);
    }
    forall i | 0 <= i < |sent| && sent[i].auth != "" ensures twice[i] == once[i] {
    }
    if SettlesAtOnce(sent, stored) {
      assert twice == once;
    }
    if twice == once {
      forall i | 0 <= i < |sent| && sent[i].auth == "" ensures SettledUnder(sent, stored, sent[i].name) {
        assert twice[i] == once[i];
      }
    }
  }

  const KEYED := McpServer("tools", "https://a", "http", Some(true), map[], "key")
  const BARE := McpServer("tools", "https://b", "http", Some(true), map[], "")

  /** Two entries of one name: the second of two identical updates gives the bare one the other's credential. */
  lemma PutTwiceCanFillANamesake(c: HarnessConfig, base: Option<Base>)
    requires c.mcpServers == [] && StillWritable(c, c.defaultModel, base) && (base.Some? ==> base.value.deliversMcp)
    ensures var spec, once := SpecOf(c).(mcpServers := [KEYED, BARE]), c.(mcpServers := [KEYED, BARE]);
            && Written(c, spec, base) == Success(once)
            && Written(once, spec, base) == Success(c.(mcpServers := [KEYED, BARE.(auth := "key")]))
  {
    NamesakesAreNormal();
    NamesakesCarried();
    NormalSkillsStay(c.skills);
  }

  lemma NamesakesAreNormal()
    ensures Normalised(NormalServer, [KEYED, BARE]) == Success([KEYED, BARE])
  {
    assert !IsSpace("tools"[0]) && !IsSpace("https://a"[0]) && !IsSpace("https://b"[0]);
    assert "tools"[0] in "tools" && "https://a"[0] in "https://a" && "https://b"[0] in "https://b";
    NormalServersStay([KEYED, BARE]);
  }

  lemma NamesakesCarried()
    ensures Carried([KEYED, BARE], []) == [KEYED, BARE]
    ensures Carried([KEYED, BARE], [KEYED, BARE]) == [KEYED, BARE.(auth := "key")]
  {
    assert [KEYED, BARE][..1] == [KEYED];
    assert LastAuth([KEYED, BARE], "tools") == LastAuth([KEYED], "tools") == "key";
  }
}
