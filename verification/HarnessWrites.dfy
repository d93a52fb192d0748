/**
 What a harness write accepts and what it stores, said of what was sent and of nothing else: no
 part of the write itself is named.
 */
module HarnessWrites {
  import opened Wrappers
  import opened Budgets
  import opened Harnesses
  import opened HarnessLaws

  // ------------------------------------------------------------- paths in a bundle

  /** The components of a path, empty ones included. */
  function Components(p: string): (parts: seq<string>)
    ensures |parts| > 0
  {
    if p == "" then [""]
    else
      var rest := Components(p[1..]);
      if p[0] == '/' then [""] + rest else [[p[0]] + rest[0]] + rest[1..]
  }

  /** Where a path leads from a folder so deep inside its root; nowhere once it has left the root. */
  function Walked(parts: seq<string>, inside: seq<string>): Option<seq<string>>
    decreases |parts|
  {
    if |parts| == 0 then Some(inside)
    else if StaysPut(parts[0]) then Walked(parts[1..], inside)
    else if GoesUp(parts[0]) then
      if |inside| == 0 then None else Walked(parts[1..], inside[..|inside| - 1])
    else Walked(parts[1..], inside + [parts[0]])
  }

  /** A relative path of plain characters that never leaves its folder and ends below it. */
  predicate StaysInside(p: string) {
    && p != "" && p[0] != '/' && '\\' !in p && '\0' !in p
    && Walked(Components(p), []).Some? && |Walked(Components(p), []).value| > 0
  }

  lemma {:induction false} FirstComponent(p: string, end: nat)
    requires end <= |p| && '/' !in p[..end] && (end < |p| ==> p[end] == '/')
    ensures Components(p) == [p[..end]] + (if end < |p| then Components(p[end + 1..]) else [])
    decreases end
  {
    if end > 0 {
      assert p[..end][0] == p[0];
      assert p[1..][..end - 1] == p[..end][1..];
      assert forall c :: c in p[..end][1..] ==> c in p[..end];
      FirstComponent(p[1..], end - 1);
      if end < |p| {
        assert p[1..][end..] == p[end + 1..];
      }
      LongerComponent(p, p[1..][..end - 1], if end < |p| then Components(p[end + 1..]) else []);
      assert p[..end] == [p[0]] + p[1..][..end - 1];
    } else {
      assert p[..0] == "";
    }
  }

  lemma LongerComponent(p: string, c: string, rest: seq<string>)
    requires p != "" && p[0] != '/' && Components(p[1..]) == [c] + rest
    ensures Components(p) == [[p[0]] + c] + rest
  {
    assert ([c] + rest)[1..] == rest;
  }

  lemma ComponentsFrom(p: string, from: nat)
    requires from <= |p|
    ensures var end := ComponentEnd(p, from);
            Components(p[from..]) == [p[from..end]] + (if end < |p| then Components(p[end + 1..]) else [])
  {
    var end := ComponentEnd(p, from);
    Slices(p, from, end);
    FirstComponent(p[from..], end - from);
  }

  lemma Slices(p: string, from: nat, end: nat)
    requires from <= end <= |p|
    ensures p[from..][..end - from] == p[from..end]
    ensures end < |p| ==> p[from..][end - from] == p[end] && p[from..][end - from + 1..] == p[end + 1..]
  {
  }

  /** One component of a walk. */
  lemma WalkedOne(c: string, rest: seq<string>, inside: seq<string>)
    ensures Walked([c] + rest, inside) ==
              if StaysPut(c) then Walked(rest, inside)
              else if GoesUp(c) then if |inside| == 0 then None else Walked(rest, inside[..|inside| - 1])
              else Walked(rest, inside + [c])
  {
    assert ([c] + rest)[1..] == rest;
  }

  lemma DepthOne(p: string, from: nat, depth: nat)
    requires from <= |p|
    ensures var end := ComponentEnd(p, from);
            var c := p[from..end];
            && (end == |p| ==> c == p[from..])
            && (GoesUp(c) && depth == 0 ==> Depth(p, from, depth) == -1)
            && (!(GoesUp(c) && depth == 0) ==>
                  var deeper := if StaysPut(c) then depth else if GoesUp(c) then depth - 1 else depth + 1;
                  Depth(p, from, depth) == if end == |p| then deeper else Depth(p, end + 1, deeper))
            && !(StaysPut(c) && GoesUp(c))
  {
  }

  /** Where the walk leads and how deep the path is agree. */
  predicate Agree(depth: int, led: Option<seq<string>>) {
    depth == if led.Some? then |led.value| else -1
  }

  lemma {:induction false} DepthIsWhereItLeads(p: string, from: nat, inside: seq<string>)
    requires from <= |p|
    ensures Agree(Depth(p, from, |inside|), Walked(Components(p[from..]), inside))
    decreases |p| - from
  {
    var end := ComponentEnd(p, from);
    var c := p[from..end];
    if end == |p| {
      LastComponent(p, from, inside);
    } else if GoesUp(c) && |inside| == 0 {
      LeavesTheRoot(p, from);
    } else {
      var next := Onward(c, inside);
      DepthIsWhereItLeads(p, end + 1, next);
      OneComponentOn(p, from, inside, next);
    }
  }

  function Onward(c: string, inside: seq<string>): seq<string> {
    if StaysPut(c) then inside
    else if GoesUp(c) then if |inside| == 0 then [] else inside[..|inside| - 1]
    else inside + [c]
  }

  lemma LeavesTheRoot(p: string, from: nat)
    requires from <= |p| && ComponentEnd(p, from) < |p| && GoesUp(p[from..ComponentEnd(p, from)])
    ensures Agree(Depth(p, from, 0), Walked(Components(p[from..]), []))
  {
    var end := ComponentEnd(p, from);
    DepthOne(p, from, 0);
    ComponentsFrom(p, from);
    WalkedOne(p[from..end], Components(p[end + 1..]), []);
  }

  lemma OneComponentOn(p: string, from: nat, inside: seq<string>, next: seq<string>)
    requires from <= |p| && ComponentEnd(p, from) < |p|
    requires var c := p[from..ComponentEnd(p, from)];
             !(GoesUp(c) && |inside| == 0) && next == Onward(c, inside)
    requires var end := ComponentEnd(p, from);
             Agree(Depth(p, end + 1, |next|), Walked(Components(p[end + 1..]), next))
    ensures Agree(Depth(p, from, |inside|), Walked(Components(p[from..]), inside))
  {
    var end := ComponentEnd(p, from);
    DepthOne(p, from, |inside|);
    ComponentsFrom(p, from);
    WalkedOne(p[from..end], Components(p[end + 1..]), inside);
  }

  lemma LastComponent(p: string, from: nat, inside: seq<string>)
    requires from <= |p| && ComponentEnd(p, from) == |p|
    ensures Agree(Depth(p, from, |inside|), Walked(Components(p[from..]), inside))
  {
    DepthOne(p, from, |inside|);
    ComponentsFrom(p, from);
    assert p[from..|p|] == p[from..] && Components(p[from..]) == [p[from..]];
    WalkedOne(p[from..], [], inside);
    assert [p[from..]] + [] == [p[from..]];
  }

  /** An accepted path is exactly one that stays inside its folder. */
  lemma AcceptedPathIff(p: string)
    ensures ValidSkillPath(p) <==> StaysInside(p)
  {
    assert p[0..] == p;
    DepthIsWhereItLeads(p, 0, []);
  }

  // ------------------------------------------------------------------ base64

  /** Whole groups of four, the last of which may end in one or two signs of padding. */
  predicate InQuanta(t: string) {
    if |t| == 0 then true
    else if |t| < 4 then false
    else if |t| == 4 then
      && IsBase64Digit(t[0]) && IsBase64Digit(t[1])
      && (if IsBase64Digit(t[2]) then IsBase64Digit(t[3]) || t[3] == '=' else t[2] == '=' == t[3])
    else WholeQuantum(t) && InQuanta(t[4..])
  }

  predicate WholeQuantum(t: string) {
    |t| >= 4 && IsBase64Digit(t[0]) && IsBase64Digit(t[1]) && IsBase64Digit(t[2]) && IsBase64Digit(t[3])
  }

  lemma {:induction false} Base64Iff(t: string)
    ensures (|t| % 4 == 0 && (EndsIn(t, 0) || EndsIn(t, 1) || EndsIn(t, 2))) <==> InQuanta(t)
    decreases |t|
  {
    if |t| > 4 {
      Base64Iff(t[4..]);
      if |t| % 4 == 0 {
        QuantumMore(t, 0);
        QuantumMore(t, 1);
        QuantumMore(t, 2);
      }
    }
  }

  lemma QuantumMore(t: string, padding: nat)
    requires |t| > 4 && padding <= 2 && |t| - padding >= 4
    ensures EndsIn(t, padding)
            <==> WholeQuantum(t) && padding <= |t[4..]| && EndsIn(t[4..], padding)
  {
    var u := t[4..];
    if EndsIn(t, padding) && padding <= |u| {
      forall i | 0 <= i < |u| - padding ensures IsBase64Digit(u[i]) {
        assert u[i] == t[i + 4];
      }
    }
    if padding <= |u| && EndsIn(u, padding) && WholeQuantum(t) {
      forall i | 0 <= i < |t| - padding ensures IsBase64Digit(t[i]) {
        if i >= 4 {
          assert t[i] == u[i - 4];
        }
      }
      forall i | |t| - padding <= i < |t| ensures t[i] == '=' {
        assert t[i] == u[i - 4];
      }
    }
  }

  /** Only the two line break characters go, wherever they stand. */
  lemma {:induction false} OnlyLineBreaksGo(s: string, t: string)
    ensures WithoutLineBreaks(s + t) == WithoutLineBreaks(s) + WithoutLineBreaks(t)
    ensures WithoutLineBreaks("\n") == "" && WithoutLineBreaks("\r") == ""
    ensures forall c :: c != '\n' && c != '\r' ==> WithoutLineBreaks([c]) == [c]
    decreases s
  {
    assert WithoutLineBreaks("") == "";
    if s == "" {
      assert s + t == t;
    } else {
      OnlyLineBreaksGo(s[1..], t);
      assert (s + t)[1..] == s[1..] + t;
    }
  }

  // ----------------------------------------------------------------- what is accepted

  /** A string without the white space it begins and ends with. */
  function Trimmed(s: string): string {
    if s == "" then ""
    else if IsSpace(s[0]) then Trimmed(s[1..])
    else if IsSpace(s[|s| - 1]) then Trimmed(s[..|s| - 1])
    else s
  }

  lemma {:induction false} BlankIff(s: string)
    ensures Blank(s) <==> Trimmed(s) == ""
    decreases |s|
  {
    if s != "" {
      assert s == [s[0]] + s[1..] && s == s[..|s| - 1] + [s[|s| - 1]];
      if IsSpace(s[0]) {
        BlankIff(s[1..]);
      } else if IsSpace(s[|s| - 1]) {
        BlankIff(s[..|s| - 1]);
        assert s[..|s| - 1][0] == s[0];
      }
    }
  }

  predicate FileAccepted(f: SkillFile) {
    StaysInside(f.path) && (f.contentB64 == "" || InQuanta(WithoutLineBreaks(f.contentB64)))
  }

  /** A manifest alone, or a folder of good files with a manifest in it. */
  predicate BundleAccepted(sk: Skill) {
    if |sk.files| == 0 then sk.content != ""
    else
      && (forall i :: 0 <= i < |sk.files| ==> FileAccepted(sk.files[i]))
      && exists i :: 0 <= i < |sk.files| && sk.files[i].path == "SKILL.md"
  }

  predicate SkillAccepted(sk: Skill) {
    Trimmed(sk.name) != "" && BundleAccepted(sk)
  }

  predicate ServerAccepted(m: McpServer) {
    && Trimmed(m.name) != "" && Trimmed(m.url) != ""
    && (m.transport == "" || m.transport == "http" || m.transport == "sse")
  }

  lemma FileAcceptedIff(i: nat, j: nat, f: SkillFile)
    ensures FileError(i, j, f).None? <==> FileAccepted(f)
  {
    AcceptedPathIff(f.path);
    Base64Iff(WithoutLineBreaks(f.contentB64));
  }

  /** The first bad file is found exactly when there is one. */
  lemma {:induction false} FilesAreGoodIff(i: nat, files: seq<SkillFile>, n: nat)
    requires n <= |files|
    ensures BadFile(i, files, n).None? <==> forall k: nat :: k < n ==> FileError(i, k, files[k]).None?
    decreases n
  {
    if n > 0 {
      FilesAreGoodIff(i, files, n - 1);
      assert BadFile(i, files, n).None? <==> BadFile(i, files, n - 1).None? && FileError(i, n - 1, files[n - 1]).None?;
    }
  }

  lemma FilesAcceptedIff(i: nat, files: seq<SkillFile>)
    ensures BadFile(i, files, |files|).None? <==> forall k :: 0 <= k < |files| ==> FileAccepted(files[k])
  {
    FilesAreGoodIff(i, files, |files|);
    forall k: nat | k < |files| ensures FileError(i, k, files[k]).None? <==> FileAccepted(files[k]) {
      FileAcceptedIff(i, k, files[k]);
    }
  }

  lemma {:induction false} HasManifestIff(files: seq<SkillFile>, n: nat)
    requires n <= |files|
    ensures HasManifest(files, n) <==> exists k :: 0 <= k < n && files[k].path == "SKILL.md"
    decreases n
  {
    if n > 0 {
      HasManifestIff(files, n - 1);
      if files[n - 1].path == "SKILL.md" {
        assert 0 <= n - 1 < n;
      }
    }
  }

  lemma BundleAcceptedIff(i: nat, sk: Skill)
    ensures BadBundle(i, sk).None? <==> BundleAccepted(sk)
  {
    FilesAcceptedIff(i, sk.files);
    HasManifestIff(sk.files, |sk.files|);
  }

  lemma ServersAcceptedIff(servers: seq<McpServer>)
    ensures Normalised(NormalServer, servers).Success?
            <==> forall i :: 0 <= i < |servers| ==> ServerAccepted(servers[i])
  {
    NormalisedByEntry(NormalServer, servers);
    forall i | 0 <= i < |servers| ensures NormalServer(i, servers[i]).Success? <==> ServerAccepted(servers[i]) {
      BlankIff(servers[i].name);
      BlankIff(servers[i].url);
    }
  }

  lemma SkillsAcceptedIff(skills: seq<Skill>)
    ensures Normalised(NormalSkill, skills).Success?
            <==> forall i :: 0 <= i < |skills| ==> SkillAccepted(skills[i])
  {
    NormalisedByEntry(NormalSkill, skills);
    forall i | 0 <= i < |skills| ensures NormalSkill(i, skills[i]).Success? <==> SkillAccepted(skills[i]) {
      BlankIff(skills[i].name);
      BundleAcceptedIff(i, skills[i]);
    }
  }

  /** The base can serve what is asked of it; with no base, nothing is asked. */
  predicate BaseCan(spec: HarnessSpec, base: Base) {
    && (spec.defaultModel == "" || |base.models| == 0 || spec.defaultModel in base.models)
    && (|spec.mcpServers| > 0 ==> base.deliversMcp)
  }

  /** The ceiling is none, as it was, or one that can be held. */
  predicate CeilingCan(spec: HarnessSpec, have: Option<int>, base: Option<Base>) {
    spec.maxStep.None? || spec.maxStep == have
    || (spec.maxStep.value >= 0 && (base.Some? ==> !Unholdable(spec.maxStep.value, base.value.edge)))
  }

  /** A write is accepted exactly when everything in it is. */
  lemma AcceptedIff(c: HarnessConfig, spec: HarnessSpec, base: Option<Base>)
    ensures Written(c, spec, base).Success?
            <==> && (base.Some? ==> BaseCan(spec, base.value))
                 && (forall i :: 0 <= i < |spec.mcpServers| ==> ServerAccepted(spec.mcpServers[i]))
                 && (forall i :: 0 <= i < |spec.skills| ==> SkillAccepted(spec.skills[i]))
                 && CeilingCan(spec, c.maxStep, base)
  {
    ServersAcceptedIff(spec.mcpServers);
    SkillsAcceptedIff(spec.skills);
    NormalisedByEntry(NormalServer, spec.mcpServers);
    StepRefusedIff(spec, c.maxStep, base);
  }

  lemma StepRefusedIff(spec: HarnessSpec, have: Option<int>, base: Option<Base>)
    ensures StepRefused(spec, have, base).None? <==> CeilingCan(spec, have, base)
  {
  }

  // ----------------------------------------------------------------- what is stored

  /** An entry as it is stored: as sent, its defaults filled in, and its credential its own when it brought one. */
  predicate StoresServer(sent: McpServer, stored: McpServer) {
    && stored.name == sent.name && stored.url == sent.url && stored.headers == sent.headers
    && stored.transport == (if sent.transport == "" then "http" else sent.transport)
    && stored.enabled == (if sent.enabled.None? then Some(true) else sent.enabled)
    && (sent.auth != "" ==> stored.auth == sent.auth)
  }

  /** And without one, the last stored before under its name, or none. */
  ghost predicate CarriesOver(sent: McpServer, stored: McpServer, before: seq<McpServer>) {
    sent.auth == "" ==> LastKey(before, sent.name, stored.auth)
  }

  /** The credential of the last entry of a name that has one, and none when none has. */
  ghost predicate LastKey(before: seq<McpServer>, name: string, auth: string) {
    if auth == "" then forall i :: 0 <= i < |before| && before[i].name == name ==> before[i].auth == ""
    else exists i: nat :: LastKeyed(before, i, name) && before[i].auth == auth
  }

  predicate LastKeyed(before: seq<McpServer>, i: nat, name: string) {
    && i < |before| && before[i].name == name && before[i].auth != ""
    && forall j :: i < j < |before| && before[j].name == name ==> before[j].auth == ""
  }

  predicate StoresSkill(sent: Skill, stored: Skill) {
    stored == sent.(enabled := if sent.enabled.None? then Some(true) else sent.enabled)
  }

  ghost predicate StoresServers(sent: seq<McpServer>, stored: seq<McpServer>, before: seq<McpServer>) {
    && |stored| == |sent|
    && forall i :: 0 <= i < |sent| ==> StoresServer(sent[i], stored[i]) && CarriesOver(sent[i], stored[i], before)
  }

  predicate StoresSkills(sent: seq<Skill>, stored: seq<Skill>) {
    |stored| == |sent| && forall i :: 0 <= i < |sent| ==> StoresSkill(sent[i], stored[i])
  }

  lemma {:induction false} LastAuthIsLastKey(before: seq<McpServer>, name: string)
    ensures LastKey(before, name, LastAuth(before, name))
    decreases |before|
  {
    if |before| > 0 {
      var n := |before| - 1;
      var front := before[..n];
      LastAuthIsLastKey(front, name);
      if before[n].name == name && before[n].auth != "" {
        assert LastKeyed(before, n, name);
      } else if LastAuth(front, name) != "" {
        var i: nat :| LastKeyed(front, i, name) && front[i].auth == LastAuth(front, name);
        assert LastKeyed(before, i, name) && before[i] == front[i];
      } else {
        assert forall i :: 0 <= i < n ==> front[i] == before[i];
      }
    }
  }

  lemma ServersAreStored(sent: seq<McpServer>, before: seq<McpServer>)
    requires Normalised(NormalServer, sent).Success?
    ensures StoresServers(sent, Carried(Normalised(NormalServer, sent).value, before), before)
  {
    NormalisedByEntry(NormalServer, sent);
    var n := Normalised(NormalServer, sent).value;
    var stored := Carried(n, before);
    forall i | 0 <= i < |sent| ensures StoresServer(sent[i], stored[i]) && CarriesOver(sent[i], stored[i], before) {
      assert NormalServer(i, sent[i]) == Success(n[i]);
      LastAuthIsLastKey(before, sent[i].name);
    }
  }

  lemma SkillsAreStored(sent: seq<Skill>)
    requires Normalised(NormalSkill, sent).Success?
    ensures StoresSkills(sent, Normalised(NormalSkill, sent).value)
  {
    NormalisedByEntry(NormalSkill, sent);
    var n := Normalised(NormalSkill, sent).value;
    forall i | 0 <= i < |sent| ensures StoresSkill(sent[i], n[i]) {
      assert NormalSkill(i, sent[i]) == Success(n[i]);
    }
  }

  /** Where nothing was stored there is no credential to restore, so a creation is a write like any other. */
  lemma CreationIsAWrite(spec: HarnessSpec, keep: HarnessConfig, base: Option<Base>)
    requires keep.mcpServers == []
    ensures Applied(spec, keep, base) == Written(keep, spec, base)
  {
    if Applied(spec, keep, base).Success? {
      var c := Applied(spec, keep, base).value;
      assert Carried(c.mcpServers, []) == c.mcpServers;
    }
  }

  /** An accepted write stores all that it says, on the harness it is about. */
  lemma WriteStoresWhatIsSent(c: HarnessConfig, spec: HarnessSpec, base: Option<Base>, c': HarnessConfig)
    requires Written(c, spec, base) == Success(c')
    ensures c'.id == c.id && c'.base == c.base && c'.createdAt == c.createdAt
    ensures c'.name == if spec.name == "" && base.Some? then base.value.name else spec.name
    ensures c'.defaultModel == spec.defaultModel && c'.systemPrompt == spec.systemPrompt
    ensures c'.disabledTools == spec.disabledTools
    ensures c'.maxStep == spec.maxStep && c'.timeoutSeconds == spec.timeoutSeconds
    ensures StoresServers(spec.mcpServers, c'.mcpServers, c.mcpServers) && StoresSkills(spec.skills, c'.skills)
  {
    WrittenFields(c, spec, base);
    ServersAreStored(spec.mcpServers, c.mcpServers);
    SkillsAreStored(spec.skills);
  }

  /** An accepted patch stores every field it sends, whatever state the harness was in. */
  lemma PatchStoresWhatItSends(c: HarnessConfig, p: HarnessPatch, base: Option<Base>, c': HarnessConfig)
    requires Written(c, Onto(p, SpecOf(c)), base) == Success(c')
    ensures p.name.Some? && p.name.value != "" ==> c'.name == p.name.value
    ensures p.defaultModel.Some? ==> c'.defaultModel == p.defaultModel.value
    ensures p.systemPrompt.Some? ==> c'.systemPrompt == p.systemPrompt.value
    ensures p.mcpServers.Some? ==> StoresServers(p.mcpServers.value, c'.mcpServers, c.mcpServers)
    ensures p.skills.Some? ==> StoresSkills(p.skills.value, c'.skills)
    ensures p.disabledTools.Some? ==> c'.disabledTools == p.disabledTools.value
    ensures p.maxStep.Some? ==> c'.maxStep == p.maxStep.value
    ensures p.timeoutSeconds.Some? ==> c'.timeoutSeconds == p.timeoutSeconds.value
  {
    WriteStoresWhatIsSent(c, Onto(p, SpecOf(c)), base, c');
  }

  /** What an accepted patch leaves out is written as it was stored, whatever state the harness was in. */
  lemma PatchSendsTheRest(c: HarnessConfig, p: HarnessPatch, base: Option<Base>, c': HarnessConfig)
    requires Written(c, Onto(p, SpecOf(c)), base) == Success(c')
    ensures p.name.None? && c.name != "" ==> c'.name == c.name
    ensures p.defaultModel.None? ==> c'.defaultModel == c.defaultModel
    ensures p.systemPrompt.None? ==> c'.systemPrompt == c.systemPrompt
    ensures p.mcpServers.None? ==> StoresServers(c.mcpServers, c'.mcpServers, c.mcpServers)
    ensures p.skills.None? ==> StoresSkills(c.skills, c'.skills)
    ensures p.disabledTools.None? ==> c'.disabledTools == c.disabledTools
    ensures p.maxStep.None? ==> c'.maxStep == c.maxStep
    ensures p.timeoutSeconds.None? ==> c'.timeoutSeconds == c.timeoutSeconds
  {
    WriteStoresWhatIsSent(c, Onto(p, SpecOf(c)), base, c');
  }

  // ------------------------------------------------------------------ what is shown

  /** The view shows every stored field but the credentials, and of the base what it is now. */
  lemma ViewShows(c: HarnessConfig, base: Option<Base>)
    ensures var v := Info(c, base);
            && v.config.id == c.id && v.config.name == c.name && v.config.base == c.base
            && v.config.systemPrompt == c.systemPrompt && v.config.skills == c.skills
            && v.config.disabledTools == c.disabledTools && v.config.maxStep == c.maxStep
            && v.config.timeoutSeconds == c.timeoutSeconds && v.config.createdAt == c.createdAt
            && |v.config.mcpServers| == |c.mcpServers|
            && (forall i :: 0 <= i < |c.mcpServers| ==> v.config.mcpServers[i] == c.mcpServers[i].(auth := ""))
            && (c.defaultModel != "" ==> v.config.defaultModel == c.defaultModel)
            && (c.defaultModel == "" ==> v.config.defaultModel == if base.Some? then base.value.defaultModel else "")
            && v.models == (if base.Some? then base.value.models else [])
            && (v.ready <==> base.Some? && base.value.ready)
  {
  }
}
