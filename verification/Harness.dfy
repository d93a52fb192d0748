/**
 Managed harnesses: what is stored of one, the view of it that a client reads, which never
 carries a credential, and the writes, which restore the credentials a client cannot send.
 */
module Harnesses {
  import opened Wrappers
  import opened Budgets

  datatype McpServer = McpServer(
    name: string, url: string, transport: string, enabled: Option<bool>, headers: map<string, string>, auth: string)

  datatype SkillFile = SkillFile(path: string, content: string, contentB64: string)
  datatype Skill = Skill(name: string, enabled: Option<bool>, files: seq<SkillFile>, content: string, blob: string)

  datatype HarnessConfig = HarnessConfig(
    id: string, name: string, base: string, defaultModel: string, systemPrompt: string,
    mcpServers: seq<McpServer>, skills: seq<Skill>, disabledTools: seq<string>,
    maxStep: Option<int>, timeoutSeconds: Option<int>, createdAt: int)

  /** What a client sends on a create or an update: no id and no creation time. */
  datatype HarnessSpec = HarnessSpec(
    name: string, base: string, defaultModel: string, systemPrompt: string,
    mcpServers: seq<McpServer>, skills: seq<Skill>, disabledTools: seq<string>,
    maxStep: Option<int>, timeoutSeconds: Option<int>)

  /** The harness object a client reads: the configuration, and what only the base can answer. */
  datatype HarnessView = HarnessView(config: HarnessConfig, models: seq<string>, ready: bool)

  /** The compiled-in runtime a harness is built on. */
  datatype Base = Base(name: string, models: seq<string>, defaultModel: string, ready: bool,
                       deliversMcp: bool, edge: StepEdge)

  datatype HarnessError =
    | ManagementUnsupported | HarnessNotFound | HarnessNotManaged | BaseImmutable
    | BaseRequired | UnsupportedBase | UnsupportedModel | McpUndeliverable
    | McpWithoutName(index: nat) | McpWithoutUrl(index: nat) | McpTransport(index: nat)
    | SkillWithoutName(index: nat) | SkillEmpty(index: nat) | SkillPath(index: nat, file: nat)
    | SkillBase64(index: nat, file: nat) | SkillWithoutManifest(index: nat)
    | NegativeMaxStep | MaxStepNotEnforceable | StorageFailed

  // ------------------------------------------------------------- normalisation

  predicate IsSpace(c: char) {
    || '\t' <= c <= '\r' || c == ' ' || c == '\U{85}' || c == '\U{A0}' || c == '\U{1680}'
    || '\U{2000}' <= c <= '\U{200A}' || c == '\U{2028}' || c == '\U{2029}' || c == '\U{202F}' || c == '\U{205F}'
    || c == '\U{3000}'
  }

  predicate Blank(s: string) {
    forall c :: c in s ==> IsSpace(c)
  }

  function NormalServer(i: nat, m: McpServer): Result<McpServer, HarnessError> {
    var transport := if m.transport == "" then "http" else m.transport;
    if Blank(m.name) then Failure(McpWithoutName(i))
    else if Blank(m.url) then Failure(McpWithoutUrl(i))
    else if transport != "http" && transport != "sse" then Failure(McpTransport(i))
    else Success(m.(transport := transport, enabled := if m.enabled.None? then Some(true) else m.enabled))
  }

  function NormalSkill(i: nat, sk: Skill): Result<Skill, HarnessError> {
    if Blank(sk.name) then Failure(SkillWithoutName(i))
    else match BadBundle(i, sk)
      case Some(e) => Failure(e)
      case None => Success(sk.(enabled := if sk.enabled.None? then Some(true) else sk.enabled))
  }

  function BadBundle(i: nat, sk: Skill): Option<HarnessError> {
    if |sk.files| == 0 then
      if sk.content != "" then None else Some(SkillEmpty(i))
    else match BadFile(i, sk.files, |sk.files|)
      case Some(e) => Some(e)
      case None => if HasManifest(sk.files, |sk.files|) then None else Some(SkillWithoutManifest(i))
  }

  predicate HasManifest(files: seq<SkillFile>, n: nat)
    requires n <= |files|
  {
    n > 0 && (files[n - 1].path == "SKILL.md" || HasManifest(files, n - 1))
  }

  /** What is wrong with a bundle's j-th file. */
  function FileError(i: nat, j: nat, f: SkillFile): Option<HarnessError> {
    if !ValidSkillPath(f.path) then Some(SkillPath(i, j))
    else if f.contentB64 != "" && !IsBase64(f.contentB64) then Some(SkillBase64(i, j))
    else None
  }

  /** The first unacceptable file among the first n. */
  function BadFile(i: nat, files: seq<SkillFile>, n: nat): Option<HarnessError>
    requires n <= |files|
  {
    if n == 0 then None
    else
      var earlier := BadFile(i, files, n - 1);
      if earlier.Some? then earlier else FileError(i, n - 1, files[n - 1])
  }

  /** A relative path that stays inside its folder and names something in it. */
  predicate ValidSkillPath(p: string) {
    p != "" && '\\' !in p && '\0' !in p && p[0] != '/' && Depth(p, 0, 0) > 0
  }

  /** Nothing, or one dot. */
  predicate StaysPut(c: string) {
    |c| == 0 || (|c| == 1 && c[0] == '.')
  }

  /** Two dots. */
  predicate GoesUp(c: string) {
    |c| == 2 && c[0] == '.' && c[1] == '.'
  }

  /** How deep a path ends, component by component; -1 once it has climbed out of the folder. */
  function Depth(p: string, from: nat, depth: nat): int
    requires from <= |p|
    decreases |p| - from
  {
    var end := ComponentEnd(p, from);
    var c := p[from..end];
    if GoesUp(c) && depth == 0 then -1
    else
      var deeper := if StaysPut(c) then depth else if GoesUp(c) then depth - 1 else depth + 1;
      if end == |p| then deeper else Depth(p, end + 1, deeper)
  }

  function ComponentEnd(p: string, from: nat): (end: nat)
    requires from <= |p|
    ensures from <= end <= |p| && (end < |p| ==> p[end] == '/') && '/' !in p[from..end]
    decreases |p| - from
  {
    if from == |p| || p[from] == '/' then from
    else
      assert forall end :: from < end <= |p| ==> p[from..end] == [p[from]] + p[from + 1..end];
      ComponentEnd(p, from + 1)
  }

  /** Standard base64, line breaks ignored: whole quanta, padding only at the end. */
  predicate IsBase64(s: string) {
    var t := WithoutLineBreaks(s);
    |t| % 4 == 0 && (EndsIn(t, 0) || EndsIn(t, 1) || EndsIn(t, 2))
  }

  /** Digits, then this much padding. */
  predicate EndsIn(t: string, padding: nat) {
    && padding <= |t|
    && (forall i :: |t| - padding <= i < |t| ==> t[i] == '=')
    && (forall i :: 0 <= i < |t| - padding ==> IsBase64Digit(t[i]))
  }

  predicate IsBase64Digit(c: char) {
    'A' <= c <= 'Z' || 'a' <= c <= 'z' || '0' <= c <= '9' || c == '+' || c == '/'
  }

  function WithoutLineBreaks(s: string): string {
    if s == "" then ""
    else (if s[0] == '\n' || s[0] == '\r' then [] else [s[0]]) + WithoutLineBreaks(s[1..])
  }

  /** Every entry's normal form, or the first entry's refusal. */
  function Normalised<T>(normal: (nat, T) -> Result<T, HarnessError>, xs: seq<T>): Result<seq<T>, HarnessError> {
    if |xs| == 0 then Success([])
    else
      match Normalised(normal, xs[..|xs| - 1])
      case Failure(e) => Failure(e)
      case Success(done) =>
        match normal(|xs| - 1, xs[|xs| - 1])
        case Failure(e) => Failure(e)
        case Success(x) => Success(done + [x])
  }

  method NormalizeMcpServers(servers: seq<McpServer>) returns (r: Result<seq<McpServer>, HarnessError>)
    ensures r == Normalised(NormalServer, servers)
  {
    var out := [];
    for i := 0 to |servers|
      invariant Normalised(NormalServer, servers[..i]) == Success(out)
    {
      assert servers[..i + 1][..i] == servers[..i];
      var m := servers[i];
      if Blank(m.name) {
        FirstRefusal(NormalServer, servers, i);
        return Failure(McpWithoutName(i));
      }
      if Blank(m.url) {
        FirstRefusal(NormalServer, servers, i);
        return Failure(McpWithoutUrl(i));
      }
      if m.transport == "" {
        m := m.(transport := "http");
      }
      if m.transport != "http" && m.transport != "sse" {
        FirstRefusal(NormalServer, servers, i);
        return Failure(McpTransport(i));
      }
      if m.enabled.None? {
        m := m.(enabled := Some(true));
      }
      out := out + [m];
    }
    assert servers[..|servers|] == servers;
    return Success(out);
  }

  method NormalizeSkills(skills: seq<Skill>) returns (r: Result<seq<Skill>, HarnessError>)
    ensures r == Normalised(NormalSkill, skills)
  {
    var out := [];
    for i := 0 to |skills|
      invariant Normalised(NormalSkill, skills[..i]) == Success(out)
    {
      assert skills[..i + 1][..i] == skills[..i];
      var sk := skills[i];
      if Blank(sk.name) {
        FirstRefusal(NormalSkill, skills, i);
        return Failure(SkillWithoutName(i));
      }
      var bad := ValidateSkillFiles(i, sk);
      if bad.Some? {
        FirstRefusal(NormalSkill, skills, i);
        return Failure(bad.value);
      }
      if sk.enabled.None? {
        sk := sk.(enabled := Some(true));
      }
      out := out + [sk];
    }
    assert skills[..|skills|] == skills;
    return Success(out);
  }

  method ValidateSkillFiles(index: nat, sk: Skill) returns (bad: Option<HarnessError>)
    ensures bad == BadBundle(index, sk)
  {
    if |sk.files| == 0 {
      return if sk.content != "" then None else Some(SkillEmpty(index));
    }
    var manifest := false;
    for j := 0 to |sk.files|
      invariant BadFile(index, sk.files, j).None?
      invariant manifest == HasManifest(sk.files, j)
    {
      bad := ValidateSkillFile(index, j, sk.files[j]);
      if bad.Some? {
        BadFileStays(index, sk.files, j + 1, |sk.files|);
        return;
      }
      if sk.files[j].path == "SKILL.md" {
        manifest := true;
      }
    }
    return if manifest then None else Some(SkillWithoutManifest(index));
  }

  method ValidateSkillFile(index: nat, j: nat, f: SkillFile) returns (bad: Option<HarnessError>)
    ensures bad == FileError(index, j, f)
  {
    if !ValidSkillPath(f.path) {
      return Some(SkillPath(index, j));
    }
    if f.contentB64 != "" && !IsBase64(f.contentB64) {
      return Some(SkillBase64(index, j));
    }
    return None;
  }

  lemma {:induction false} BadFileStays(i: nat, files: seq<SkillFile>, n: nat, m: nat)
    requires n <= m <= |files| && BadFile(i, files, n).Some?
    ensures BadFile(i, files, m) == BadFile(i, files, n)
    decreases m
  {
    if n < m {
      BadFileStays(i, files, n, m - 1);
    }
  }

  /** Once an entry is refused, what follows it does not matter. */
  lemma {:induction false} FirstRefusal<T>(normal: (nat, T) -> Result<T, HarnessError>, xs: seq<T>, i: nat)
    requires i < |xs| && Normalised(normal, xs[..i]).Success? && normal(i, xs[i]).Failure?
    ensures Normalised(normal, xs) == Failure(normal(i, xs[i]).error)
    decreases |xs|
  {
    if i == |xs| - 1 {
      assert xs[..i] == xs[..|xs| - 1];
    } else {
      var front := xs[..|xs| - 1];
      assert front[..i] == xs[..i];
      FirstRefusal(normal, front, i);
    }
  }

  // --------------------------------------------------------------- credentials

  /** The credential stored last under a name; empty when there is none. */
  function LastAuth(servers: seq<McpServer>, name: string): string {
    if |servers| == 0 then ""
    else
      var m := servers[|servers| - 1];
      if m.name == name && m.auth != "" then m.auth else LastAuth(servers[..|servers| - 1], name)
  }

  function Carried(next: seq<McpServer>, previous: seq<McpServer>): (r: seq<McpServer>)
    ensures |r| == |next|
  {
    seq(|next|, i requires 0 <= i < |next| =>
      if next[i].auth != "" then next[i] else next[i].(auth := LastAuth(previous, next[i].name)))
  }

  method CarryForwardCredentials(next: array<McpServer>, previous: seq<McpServer>)
    modifies next
    ensures next[..] == Carried(old(next[..]), previous)
  {
    if next.Length == 0 {
      return;
    }
    if |previous| == 0 {
      assert forall i :: 0 <= i < next.Length && next[i].auth == "" ==> next[i].(auth := "") == next[i];
      return;
    }
    var stored: map<string, string> := map[];
    for i := 0 to |previous|
      invariant forall name :: Looked(stored, name) == LastAuth(previous[..i], name)
    {
      assert previous[..i + 1][..i] == previous[..i];
      if previous[i].auth != "" {
        stored := stored[previous[i].name := previous[i].auth];
      }
    }
    assert previous[..|previous|] == previous;
    for i := 0 to next.Length
      invariant forall k :: 0 <= k < i ==> next[k] == Carried(old(next[..]), previous)[k]
      invariant forall k :: i <= k < next.Length ==> next[k] == old(next[k])
    {
      if next[i].auth == "" {
        next[i] := next[i].(auth := Looked(stored, next[i].name));
      }
    }
  }

  /** A missing key reads as the empty string. */
  function Looked(stored: map<string, string>, name: string): string {
    if name in stored then stored[name] else ""
  }

  function WithoutCredentials(servers: seq<McpServer>): seq<McpServer> {
    seq(|servers|, i requires 0 <= i < |servers| => servers[i].(auth := ""))
  }

  // --------------------------------------------------------------- read and write

  function Info(c: HarnessConfig, base: Option<Base>): HarnessView {
    var shown := c.(mcpServers := WithoutCredentials(c.mcpServers));
    match base
    case None => HarnessView(shown, [], false)
    case Some(b) =>
      HarnessView(if c.defaultModel == "" then shown.(defaultModel := b.defaultModel) else shown, b.models, b.ready)
  }

  /** Fills the view in field by field, the entries copied one at a time with their credential blanked. */
  method Render(c: HarnessConfig, base: Option<Base>) returns (view: HarnessView)
    ensures view == Info(c, base)
  {
    var out := [];
    for i := 0 to |c.mcpServers|
      invariant |out| == i && forall k :: 0 <= k < i ==> out[k] == c.mcpServers[k].(auth := "")
    {
      out := out + [c.mcpServers[i].(auth := "")];
    }
    assert out == WithoutCredentials(c.mcpServers);
    view := HarnessView(c.(mcpServers := out), [], false);
    if base.None? {
      return view;
    }
    view := view.(models := base.value.models, ready := base.value.ready);
    if view.config.defaultModel == "" {
      view := view.(config := view.config.(defaultModel := base.value.defaultModel));
    }
  }

  predicate AcceptsModel(base: Base, model: string) {
    model == "" || |base.models| == 0 || model in base.models
  }

  predicate ChangingStepBudget(want: Option<int>, have: Option<int>) {
    want.Some? && want != have
  }

  function StepRefused(spec: HarnessSpec, have: Option<int>, base: Option<Base>): Option<HarnessError> {
    if !ChangingStepBudget(spec.maxStep, have) then None
    else if spec.maxStep.value < 0 then Some(NegativeMaxStep)
    else if base.Some? && RequireStepBudget(spec.maxStep, base.value.edge).Some? then Some(MaxStepNotEnforceable)
    else None
  }

  function Named(name: string, base: Option<Base>): string {
    if name == "" && base.Some? then base.value.name else name
  }

  /** A spec folded onto the immutable part of `keep`, or the first refusal of it. */
  function Applied(spec: HarnessSpec, keep: HarnessConfig, base: Option<Base>): Result<HarnessConfig, HarnessError> {
    if base.Some? && !AcceptsModel(base.value, spec.defaultModel) then Failure(UnsupportedModel)
    else match Normalised(NormalServer, spec.mcpServers)
      case Failure(e) => Failure(e)
      case Success(servers) =>
        if |servers| > 0 && base.Some? && !base.value.deliversMcp then Failure(McpUndeliverable)
        else match Normalised(NormalSkill, spec.skills)
          case Failure(e) => Failure(e)
          case Success(skills) =>
            match StepRefused(spec, keep.maxStep, base)
            case Some(e) => Failure(e)
            case None =>
              Success(HarnessConfig(keep.id, Named(spec.name, base), keep.base, spec.defaultModel, spec.systemPrompt,
                                    servers, skills, spec.disabledTools, spec.maxStep, spec.timeoutSeconds,
                                    keep.createdAt))
  }

  /** The configuration a write stores: the spec, with the credentials it could not name. */
  function Written(existing: HarnessConfig, spec: HarnessSpec, base: Option<Base>)
    : Result<HarnessConfig, HarnessError>
  {
    match Applied(spec, existing, base)
    case Failure(e) => Failure(e)
    case Success(c) => Success(c.(mcpServers := Carried(c.mcpServers, existing.mcpServers)))
  }

  function SpecOf(c: HarnessConfig): HarnessSpec {
    HarnessSpec(c.name, c.base, c.defaultModel, c.systemPrompt, c.mcpServers, c.skills, c.disabledTools, c.maxStep,
                c.timeoutSeconds)
  }

  /** A field a partial update sends, or leaves out. */
  function Given<T>(sent: Option<T>, fallback: T): T {
    if sent.Some? then sent.value else fallback
  }

  datatype HarnessPatch = HarnessPatch(
    name: Option<string>, base: Option<string>, defaultModel: Option<string>, systemPrompt: Option<string>,
    mcpServers: Option<seq<McpServer>>, skills: Option<seq<Skill>>, disabledTools: Option<seq<string>>,
    maxStep: Option<Option<int>>, timeoutSeconds: Option<Option<int>>)

  const EMPTY_PATCH := HarnessPatch(None, None, None, None, None, None, None, None, None)

  function Onto(p: HarnessPatch, spec: HarnessSpec): HarnessSpec {
    HarnessSpec(
      Given(p.name, spec.name), spec.base, Given(p.defaultModel, spec.defaultModel),
      Given(p.systemPrompt, spec.systemPrompt),
      Given(p.mcpServers, spec.mcpServers), Given(p.skills, spec.skills), Given(p.disabledTools, spec.disabledTools),
      Given(p.maxStep, spec.maxStep), Given(p.timeoutSeconds, spec.timeoutSeconds))
  }

  method ApplySpec(spec: HarnessSpec, keep: HarnessConfig, base: Option<Base>)
    returns (r: Result<HarnessConfig, HarnessError>)
    ensures r == Applied(spec, keep, base)
  {
    if base.Some? && !AcceptsModel(base.value, spec.defaultModel) {
      return Failure(UnsupportedModel);
    }
    var servers := NormalizeMcpServers(spec.mcpServers);
    if servers.Failure? {
      return Failure(servers.error);
    }
    if |servers.value| > 0 && base.Some? && !base.value.deliversMcp {
      return Failure(McpUndeliverable);
    }
    var skills := NormalizeSkills(spec.skills);
    if skills.Failure? {
      return Failure(skills.error);
    }
    if ChangingStepBudget(spec.maxStep, keep.maxStep) {
      if spec.maxStep.value < 0 {
        return Failure(NegativeMaxStep);
      }
      if base.Some? && RequireStepBudget(spec.maxStep, base.value.edge).Some? {
        return Failure(MaxStepNotEnforceable);
      }
    }
    var c := keep.(name := spec.name);
    if c.name == "" && base.Some? {
      c := c.(name := base.value.name);
    }
    c := c.(defaultModel := spec.defaultModel, systemPrompt := spec.systemPrompt, mcpServers := servers.value,
            skills := skills.value, disabledTools := spec.disabledTools, maxStep := spec.maxStep,
            timeoutSeconds := spec.timeoutSeconds);
    return Success(c);
  }

  /** The stored harnesses, the runtimes they may be built on, and the ids the server itself owns. */
  class HarnessService {
    const enabled: bool
    const bases: map<string, Base>
    const builtIn: set<string>
    var stored: map<string, HarnessConfig>

    constructor (enabled: bool, bases: map<string, Base>, builtIn: set<string>)
      ensures stored == map[] && this.enabled == enabled && this.bases == bases && this.builtIn == builtIn
    {
      this.enabled, this.bases, this.builtIn := enabled, bases, builtIn;
      stored := map[];
    }

    function BaseOf(base: string): Option<Base> {
      if base != "" && base in bases then Some(bases[base]) else None
    }

    /** The harness a write is about, or the way it is missing; `readable` is whether the store answers. */
    function ForWrite(id: string, readable: bool): Result<HarnessConfig, HarnessError>
      reads this`stored
    {
      if !enabled then Failure(ManagementUnsupported)
      else if !readable then Failure(StorageFailed)
      else if id in stored then Success(stored[id])
      else if id in builtIn then Failure(HarnessNotManaged)
      else Failure(HarnessNotFound)
    }

    /** Reads one harness as a client is shown it. */
    method GetHarness(id: string, readable: bool) returns (r: Result<Option<HarnessView>, HarnessError>)
      ensures r.Failure? <==> enabled && !readable
      ensures r.Failure? ==> r.error == StorageFailed
      ensures r.Success? ==> (r.value.Some? <==> enabled && id in stored)
      ensures r.Success? && r.value.Some? ==> r.value.value == Info(stored[id], BaseOf(stored[id].base))
    {
      if enabled && !readable {
        return Failure(StorageFailed);
      }
      if !enabled || id !in stored {
        return Success(None);
      }
      var view := Render(stored[id], BaseOf(stored[id].base));
      return Success(Some(view));
    }

    method CreateHarness(id: string, createdAt: int, spec: HarnessSpec, persists: bool)
      returns (r: Result<HarnessView, HarnessError>)
      modifies this`stored
      ensures r.Failure? ==> stored == old(stored)
      ensures !enabled ==> r == Failure(ManagementUnsupported)
      ensures enabled && spec.base == "" ==> r == Failure(BaseRequired)
      ensures enabled && spec.base != "" && spec.base !in bases ==> r == Failure(UnsupportedBase)
      ensures enabled && spec.base != "" && spec.base in bases ==>
                var keep := HarnessConfig(id, "", spec.base, "", "", [], [], [], None, None, createdAt);
                match Applied(spec, keep, Some(bases[spec.base]))
                case Failure(e) => r == Failure(e)
                case Success(c) =>
                  if persists then stored == old(stored)[id := c] && r == Success(Info(c, Some(bases[spec.base])))
                  else r == Failure(StorageFailed)
    {
      if !enabled {
        return Failure(ManagementUnsupported);
      }
      if spec.base == "" {
        return Failure(BaseRequired);
      }
      var base := BaseOf(spec.base);
      if base.None? {
        return Failure(UnsupportedBase);
      }
      var c := ApplySpec(spec, HarnessConfig(id, "", spec.base, "", "", [], [], [], None, None, createdAt), base);
      if c.Failure? {
        return Failure(c.error);
      }
      if !persists {
        return Failure(StorageFailed);
      }
      stored := stored[id := c.value];
      var view := Render(c.value, base);
      return Success(view);
    }

    method UpdateHarness(id: string, spec: HarnessSpec, readable: bool, persists: bool)
      returns (r: Result<HarnessView, HarnessError>)
      modifies this`stored
      ensures r.Failure? ==> stored == old(stored)
      ensures !enabled ==> r == Failure(ManagementUnsupported)
      ensures enabled && !readable ==> r == Failure(StorageFailed)
      ensures enabled && readable && id !in old(stored) ==>
                r == Failure(if id in builtIn then HarnessNotManaged else HarnessNotFound)
      ensures enabled && readable && id in old(stored) ==>
                var c := old(stored[id]);
                if spec.base != "" && spec.base != c.base then r == Failure(BaseImmutable)
                else WroteIt(id, c, spec, old(stored), persists, r)
    {
      var existing := ForWrite(id, readable);
      if existing.Failure? {
        return Failure(existing.error);
      }
      if spec.base != "" && spec.base != existing.value.base {
        return Failure(BaseImmutable);
      }
      r := WriteHarness(id, existing.value, spec, persists);
    }

    method PatchHarness(id: string, p: HarnessPatch, readable: bool, persists: bool)
      returns (r: Result<HarnessView, HarnessError>)
      modifies this`stored
      ensures r.Failure? ==> stored == old(stored)
      ensures !enabled ==> r == Failure(ManagementUnsupported)
      ensures enabled && !readable ==> r == Failure(StorageFailed)
      ensures enabled && readable && id !in old(stored) ==>
                r == Failure(if id in builtIn then HarnessNotManaged else HarnessNotFound)
      ensures enabled && readable && id in old(stored) ==>
                var c := old(stored[id]);
                if p.base.Some? && p.base.value != "" && p.base.value != c.base then r == Failure(BaseImmutable)
                else WroteIt(id, c, Onto(p, SpecOf(c)), old(stored), persists, r)
    {
      var existing := ForWrite(id, readable);
      if existing.Failure? {
        return Failure(existing.error);
      }
      if p.base.Some? && p.base.value != "" && p.base.value != existing.value.base {
        return Failure(BaseImmutable);
      }
      r := WriteHarness(id, existing.value, Onto(p, SpecOf(existing.value)), persists);
    }

    /** The outcome both update verbs share: the write as specified, stored only if the store takes it. */
    ghost predicate WroteIt(id: string, c: HarnessConfig, spec: HarnessSpec, before: map<string, HarnessConfig>,
                            persists: bool, r: Result<HarnessView, HarnessError>)
      reads this`stored
    {
      match Written(c, spec, BaseOf(c.base))
      case Failure(e) => r == Failure(e) && stored == before
      case Success(c') =>
        if persists then stored == before[id := c'] && r == Success(Info(c', BaseOf(c.base)))
        else r == Failure(StorageFailed) && stored == before
    }

    method WriteHarness(id: string, existing: HarnessConfig, spec: HarnessSpec, persists: bool)
      returns (r: Result<HarnessView, HarnessError>)
      modifies this`stored
      ensures WroteIt(id, existing, spec, old(stored), persists, r)
    {
      var base := BaseOf(existing.base);
      var c := ApplySpec(spec, existing, base);
      if c.Failure? {
        return Failure(c.error);
      }
      var servers := c.value.mcpServers;
      var entries := new McpServer[|servers|](i requires 0 <= i < |servers| => servers[i]);
      assert entries[..] == servers;
      CarryForwardCredentials(entries, existing.mcpServers);
      var written := c.value.(mcpServers := entries[..]);
      if !persists {
        return Failure(StorageFailed);
      }
      stored := stored[id := written];
      var view := Render(written, base);
      return Success(view);
    }
  }
}
