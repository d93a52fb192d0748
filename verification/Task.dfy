/**
 A task: the response it amounts to, and what the server keeps beside it. The
 value comes first with the laws of its operations; the class that changes it in place follows.
 */
module Tasks {
  import opened Wrappers
  import opened Protocol

  datatype Artifact = Artifact(id: string)

  /** What is settled when the task is created and never changes. */
  datatype TaskInfo = TaskInfo(
    id: string,
    sessionId: string,
    harnessId: string,
    requestedModel: string,
    timeoutSeconds: int,
    maxStep: Option<int>,
    ignoredFields: seq<string>)

  datatype TaskState = TaskState(
    info: TaskInfo,
    status: Status,
    output: seq<OutputItem>,
    error: Option<ErrorInfo>,
    incompleteReason: Option<string>,
    model: string,
    usage: Option<nat>,
    metadata: map<MetaKey, Meta>,
    artifacts: seq<Artifact>,
    nativeSessionId: string)

  function ResponseOf(t: TaskState): Response {
    Response(t.info.id, t.status, t.output, t.error, t.incompleteReason, t.model, t.usage, t.metadata)
  }

  // ------------------------------------------------------------------ the text

  function MessageId(taskId: string): string {
    "msg_" + taskId
  }

  /** The position of the assistant message item, or the output's length when there is none. */
  function MessageAt(output: seq<OutputItem>): (i: nat)
    ensures i <= |output|
    ensures i < |output| ==> output[i].kind == Message
    ensures forall j :: 0 <= j < i ==> output[j].kind != Message
  {
    if |output| == 0 || output[0].kind == Message then 0 else 1 + MessageAt(output[1..])
  }

  function WithText(item: OutputItem, delta: string): OutputItem {
    if |item.content| == 0 then item.(content := [ContentPart(delta, [])])
    else item.(content := item.content[0 := item.content[0].(text := item.content[0].text + delta)])
  }

  function AppendText(taskId: string, output: seq<OutputItem>, delta: string): (o: seq<OutputItem>)
    ensures MessageAt(o) == MessageAt(output) < |o|
  {
    var i := MessageAt(output);
    var o := if i < |output| then output[i := WithText(output[i], delta)]
             else output + [OutputItem(MessageId(taskId), Message, ItemInProgress, [ContentPart(delta, [])])];
    MessageAtIs(o, i);
    o
  }

  function PartsText(parts: seq<ContentPart>): string {
    if |parts| == 0 then "" else parts[0].text + PartsText(parts[1..])
  }

  /** The texts of all message parts, one after another. */
  function OutputText(output: seq<OutputItem>): string {
    if |output| == 0 then ""
    else (if output[0].kind == Message then PartsText(output[0].content) else "") + OutputText(output[1..])
  }

  /** The shape every run keeps: one message item at most, with one part at most. */
  ghost predicate SingleMessage(output: seq<OutputItem>) {
    forall i :: 0 <= i < |output| && output[i].kind == Message ==>
      i == MessageAt(output) && |output[i].content| <= 1
  }

  lemma {:induction false} NoMessageNoText(output: seq<OutputItem>)
    requires forall i :: 0 <= i < |output| ==> output[i].kind != Message
    ensures OutputText(output) == ""
  {
    if |output| > 0 {
      NoMessageNoText(output[1..]);
    }
  }

  lemma {:induction false} OutputTextIsMessageText(output: seq<OutputItem>)
    requires SingleMessage(output)
    ensures var i := MessageAt(output);
            OutputText(output) == if i < |output| then PartsText(output[i].content) else ""
  {
    if |output| > 0 {
      if output[0].kind == Message {
        forall i | 0 <= i < |output[1..]| ensures output[1..][i].kind != Message {
          assert output[1..][i] == output[i + 1];
        }
        NoMessageNoText(output[1..]);
      } else {
        assert forall i :: 0 <= i < |output[1..]| ==> output[1..][i] == output[i + 1];
        OutputTextIsMessageText(output[1..]);
      }
    }
  }

  lemma PartsTextNext(parts: seq<ContentPart>, j: nat, before: string)
    requires j < |parts|
    ensures before + PartsText(parts[j..]) == (before + parts[j].text) + PartsText(parts[j + 1..])
  {
  }

  lemma OutputTextNext(output: seq<OutputItem>, i: nat, before: string)
    requires i < |output| && output[i].kind == Message
    ensures before + OutputText(output[i..]) == (before + PartsText(output[i].content)) + OutputText(output[i + 1..])
  {
  }

  lemma MessageAtIs(output: seq<OutputItem>, i: nat)
    requires i <= |output| && (i < |output| ==> output[i].kind == Message)
    requires forall j :: 0 <= j < i ==> output[j].kind != Message
    ensures MessageAt(output) == i
  {
  }

  /** Appending a fragment adds exactly that fragment to the end of the assistant text. */
  lemma AppendTextAppends(taskId: string, output: seq<OutputItem>, delta: string)
    requires SingleMessage(output)
    ensures var o := AppendText(taskId, output, delta);
            && SingleMessage(o)
            && OutputText(o) == OutputText(output) + delta
            && MessageAt(o) == MessageAt(output) < |o|
            && |o[MessageAt(o)].content| == 1
  {
    AppendTextShape(taskId, output, delta);
    AppendedPart(taskId, output, delta);
    OutputTextIsMessageText(output);
    OutputTextIsMessageText(AppendText(taskId, output, delta));
  }

  lemma AppendTextShape(taskId: string, output: seq<OutputItem>, delta: string)
    requires SingleMessage(output)
    ensures var o := AppendText(taskId, output, delta);
            SingleMessage(o) && MessageAt(o) == MessageAt(output) < |o| && |o[MessageAt(o)].content| == 1
  {
    MessageAtIs(AppendText(taskId, output, delta), MessageAt(output));
  }

  lemma {:induction false} AppendedPart(taskId: string, output: seq<OutputItem>, delta: string)
    requires SingleMessage(output)
    ensures var i, o := MessageAt(output), AppendText(taskId, output, delta);
            PartsText(o[i].content) == (if i < |output| then PartsText(output[i].content) else "") + delta
  {
    var i, o := MessageAt(output), AppendText(taskId, output, delta);
    assert o[i].content == [o[i].content[0]];
    OnePartText(o[i].content[0]);
    if i < |output| && |output[i].content| == 1 {
      OnePartText(output[i].content[0]);
      assert output[i].content == [output[i].content[0]];
    }
  }

  lemma OnePartText(part: ContentPart)
    ensures PartsText([part]) == part.text
  {
    assert PartsText([part]) == part.text + PartsText([part][1..]);
  }

  // -------------------------------------------------------------- the citations

  /** Adds a citation for every artifact not cited yet. */
  function CiteAll(cited: seq<string>, artifacts: seq<Artifact>): seq<string>
    decreases artifacts
  {
    if |artifacts| == 0 then cited
    else
      var id := artifacts[0].id;
      CiteAll(if id in cited then cited else cited + [id], artifacts[1..])
  }

  ghost predicate Distinct<T(!new)>(xs: seq<T>) {
    forall i, j :: 0 <= i < j < |xs| ==> xs[i] != xs[j]
  }

  /** Every artifact ends up cited, exactly once, after the citations already there. */
  lemma {:induction false} CiteAllCitesOnce(cited: seq<string>, artifacts: seq<Artifact>)
    requires Distinct(cited)
    decreases artifacts
    ensures var all := CiteAll(cited, artifacts);
            && cited <= all && Distinct(all)
            && (forall a :: a in artifacts ==> a.id in all)
            && (forall id :: id in all ==> id in cited || exists a :: a in artifacts && a.id == id)
  {
    if |artifacts| > 0 {
      var id := artifacts[0].id;
      var next := if id in cited then cited else cited + [id];
      CiteAllCitesOnce(next, artifacts[1..]);
      var all := CiteAll(cited, artifacts);
      assert id in all by {
        var k :| 0 <= k < |next| && next[k] == id;
        assert all[k] == id;
      }
      assert artifacts == [artifacts[0]] + artifacts[1..];
    }
  }

  /** One artifact more is cited last, unless its id has been cited before. */
  lemma {:induction false} CiteOneMore(cited: seq<string>, artifacts: seq<Artifact>, last: Artifact)
    ensures var all := CiteAll(cited, artifacts);
            CiteAll(cited, artifacts + [last]) == if last.id in all then all else all + [last.id]
    decreases artifacts
  {
    var more := artifacts + [last];
    if |artifacts| == 0 {
      assert more[1..] == [];
    } else {
      var id := artifacts[0].id;
      CiteOneMore(if id in cited then cited else cited + [id], artifacts[1..], last);
      assert more[0] == artifacts[0] && more[1..] == artifacts[1..] + [last];
    }
  }

  function CiteOutput(output: seq<OutputItem>, artifacts: seq<Artifact>): seq<OutputItem> {
    var i := MessageAt(output);
    if |artifacts| == 0 || i == |output| || |output[i].content| == 0 then output
    else
      var part := output[i].content[0];
      var cited := part.(annotations := CiteAll(part.annotations, artifacts));
      output[i := output[i].(content := output[i].content[0 := cited])]
  }

  function CompleteItem(output: seq<OutputItem>): seq<OutputItem> {
    var i := MessageAt(output);
    if i == |output| then output else output[i := output[i].(status := ItemCompleted)]
  }

  /** Closing the item and citing the files leave every word of the text as it was. */
  lemma ClosingKeepsText(output: seq<OutputItem>, artifacts: seq<Artifact>)
    requires SingleMessage(output)
    ensures var o := CompleteItem(CiteOutput(output, artifacts));
            && SingleMessage(o) && |o| == |output| && MessageAt(o) == MessageAt(output)
            && OutputText(o) == OutputText(output)
            && (MessageAt(o) < |o| ==> |o[MessageAt(o)].content| == |output[MessageAt(o)].content|)
  {
    var c := CiteOutput(output, artifacts);
    var i := MessageAt(output);
    MessageAtIs(c, i);
    var o := CompleteItem(c);
    MessageAtIs(o, i);
    OutputTextIsMessageText(output);
    OutputTextIsMessageText(o);
    if i < |output| && |output[i].content| == 1 {
      assert PartsText(output[i].content) == output[i].content[0].text + PartsText(output[i].content[1..]);
      assert PartsText(o[i].content) == o[i].content[0].text + PartsText(o[i].content[1..]);
    }
  }

  // --------------------------------------------------------------- the metadata

  predicate Fallback(info: TaskInfo, model: string) {
    info.requestedModel != "" && info.requestedModel != model
  }

  /** What the task says of itself, folded into the client's metadata. */
  function Projected(info: TaskInfo, metadata: map<MetaKey, Meta>): map<MetaKey, Meta> {
    var m := metadata;
    var m := if info.sessionId != "" then m[SessionIdKey := Text(info.sessionId)] else m;
    var m := if info.harnessId != "" then m[HarnessIdKey := Text(info.harnessId)] else m;
    var m := if info.timeoutSeconds > 0 then m[TimeoutSecondsKey := Number(info.timeoutSeconds)] else m;
    var m := if info.maxStep.Some? then m[MaxStepKey := Number(info.maxStep.value)] else m - {MaxStepKey};
    if |info.ignoredFields| > 0 then m[IgnoredFieldsKey := Names(info.ignoredFields)] else m - {IgnoredFieldsKey}
  }

  /** Folds the bookkeeping into the wire metadata. */
  function SyncMetadata(info: TaskInfo, model: string, metadata: map<MetaKey, Meta>): map<MetaKey, Meta> {
    var m := Projected(info, metadata);
    if Fallback(info, model) then m[RequestedModelKey := Text(info.requestedModel)][ModelFallbackKey := Flag(true)]
    else m - {RequestedModelKey, ModelFallbackKey}
  }

  /**
   The metadata says a substitution happened exactly when one did, names the session and the
   harness, and states the two bounds and the ignored fields exactly as they are. What the
   server has nothing to say about is as the client sent it.
   */
  ghost predicate Truthful(info: TaskInfo, model: string, client: map<MetaKey, Meta>, metadata: map<MetaKey, Meta>) {
    TruthfulOfModel(info, model, metadata) && TruthfulOfTask(info, client, metadata)
  }

  ghost predicate TruthfulOfModel(info: TaskInfo, model: string, metadata: map<MetaKey, Meta>) {
    var substituted := info.requestedModel != "" && info.requestedModel != model;
    && Says(metadata, ModelFallbackKey, if substituted then Some(Flag(true)) else None)
    && Says(metadata, RequestedModelKey, if substituted then Some(Text(info.requestedModel)) else None)
  }

  ghost predicate TruthfulOfTask(info: TaskInfo, client: map<MetaKey, Meta>, metadata: map<MetaKey, Meta>) {
    && Says(metadata, MaxStepKey, if info.maxStep.Some? then Some(Number(info.maxStep.value)) else None)
    && Says(metadata, IgnoredFieldsKey, if |info.ignoredFields| > 0 then Some(Names(info.ignoredFields)) else None)
    && Says(metadata, SessionIdKey,
            if info.sessionId != "" then Some(Text(info.sessionId)) else Sent(client, SessionIdKey))
    && Says(metadata, HarnessIdKey,
            if info.harnessId != "" then Some(Text(info.harnessId)) else Sent(client, HarnessIdKey))
    && Says(metadata, TimeoutSecondsKey,
            if info.timeoutSeconds > 0 then Some(Number(info.timeoutSeconds)) else Sent(client, TimeoutSecondsKey))
    && (forall k: MetaKey :: k.ClientKey? ==> Says(metadata, k, Sent(client, k)))
  }

  function Sent(metadata: map<MetaKey, Meta>, k: MetaKey): Option<Meta> {
    if k in metadata then Some(metadata[k]) else None
  }

  predicate Says(metadata: map<MetaKey, Meta>, k: MetaKey, value: Option<Meta>) {
    Sent(metadata, k) == value
  }

  /**
   Whatever the client put in its metadata and whichever model was believed before, the
   projection ends truthful about the present and keeps the client's own keys.
   */
  lemma SyncIsTruthful(info: TaskInfo, model: string, metadata: map<MetaKey, Meta>)
    ensures Truthful(info, model, metadata, SyncMetadata(info, model, metadata))
  {
    SyncIsTruthfulOfModel(info, model, metadata);
    SyncIsTruthfulOfTask(info, model, metadata);
  }

  lemma SyncIsTruthfulOfModel(info: TaskInfo, model: string, metadata: map<MetaKey, Meta>)
    ensures TruthfulOfModel(info, model, SyncMetadata(info, model, metadata))
  {
  }

  lemma SyncIsTruthfulOfTask(info: TaskInfo, model: string, metadata: map<MetaKey, Meta>)
    ensures TruthfulOfTask(info, metadata, SyncMetadata(info, model, metadata))
  {
    ProjectedIsTruthful(info, metadata);
  }


  lemma ProjectedIsTruthful(info: TaskInfo, metadata: map<MetaKey, Meta>)
    ensures TruthfulOfTask(info, metadata, Projected(info, metadata))
  {
  }

  const MODEL_KEYS: set<MetaKey> := {RequestedModelKey, ModelFallbackKey}

  /** What the task says of itself is said once: saying it again over what a model left changes nothing. */
  lemma ProjectedAgain(info: TaskInfo, client: map<MetaKey, Meta>, m: map<MetaKey, Meta>)
    requires m - MODEL_KEYS == Projected(info, client) - MODEL_KEYS
    ensures Projected(info, m) - MODEL_KEYS == Projected(info, client) - MODEL_KEYS
  {
    ProjectedIsTruthful(info, client);
    assert forall k :: k !in MODEL_KEYS ==> Sent(m, k) == Sent(m - MODEL_KEYS, k) == Sent(Projected(info, client), k);
    SayingAgain(info, m);
  }

  lemma SayingAgain(info: TaskInfo, m: map<MetaKey, Meta>)
    requires info.sessionId != "" ==> Says(m, SessionIdKey, Some(Text(info.sessionId)))
    requires info.harnessId != "" ==> Says(m, HarnessIdKey, Some(Text(info.harnessId)))
    requires info.timeoutSeconds > 0 ==> Says(m, TimeoutSecondsKey, Some(Number(info.timeoutSeconds)))
    requires Says(m, MaxStepKey, if info.maxStep.Some? then Some(Number(info.maxStep.value)) else None)
    requires Says(m, IgnoredFieldsKey, if |info.ignoredFields| > 0 then Some(Names(info.ignoredFields)) else None)
    ensures Projected(info, m) == m
  {
  }

  lemma SyncDependsOn(info: TaskInfo, model: string, a: map<MetaKey, Meta>, b: map<MetaKey, Meta>)
    requires Projected(info, a) - MODEL_KEYS == Projected(info, b) - MODEL_KEYS
    ensures SyncMetadata(info, model, a) == SyncMetadata(info, model, b)
  {
    OverModelKeys(info, model, Projected(info, a));
    OverModelKeys(info, model, Projected(info, b));
  }

  lemma OverModelKeys(info: TaskInfo, model: string, m: map<MetaKey, Meta>)
    ensures m[RequestedModelKey := Text(info.requestedModel)][ModelFallbackKey := Flag(true)]
            == (m - MODEL_KEYS)[RequestedModelKey := Text(info.requestedModel)][ModelFallbackKey := Flag(true)]
  {
  }

  /** Projecting again, after any number of other models, is the same as projecting once. */
  lemma SyncForgetsEarlierModels(info: TaskInfo, earlier: string, model: string, metadata: map<MetaKey, Meta>)
    ensures SyncMetadata(info, model, SyncMetadata(info, earlier, metadata)) == SyncMetadata(info, model, metadata)
  {
    var once := SyncMetadata(info, earlier, metadata);
    assert once - MODEL_KEYS == Projected(info, metadata) - MODEL_KEYS;
    ProjectedAgain(info, metadata, once);
    SyncDependsOn(info, model, once, metadata);
  }

  // ------------------------------------------------------------------ the class

  class Task {
    const info: TaskInfo
    var status: Status
    var output: seq<OutputItem>
    var error: Option<ErrorInfo>
    var incompleteReason: Option<string>
    var model: string
    var usage: Option<nat>
    var metadata: map<MetaKey, Meta>
    var artifacts: seq<Artifact>
    var nativeSessionId: string

    ghost function View(): TaskState
      reads this
    {
      TaskState(info, status, output, error, incompleteReason, model, usage, metadata, artifacts, nativeSessionId)
    }

    /** A task as it is when its run starts. */
    constructor (info: TaskInfo, model: string, clientMetadata: map<MetaKey, Meta>)
      ensures View() == TaskState(info, InProgress, [], None, None, model, None,
                                  SyncMetadata(info, model, clientMetadata), [], "")
    {
      this.info := info;
      status, output, error, incompleteReason := InProgress, [], None, None;
      this.model := model;
      usage, artifacts, nativeSessionId := None, [], "";
      metadata := clientMetadata;
      new;
      ResyncMetadata();
    }

    /** The response as it stands: what an event made now will carry. */
    method Snapshot() returns (r: Response)
      ensures r == ResponseOf(View())
    {
      r := Response(info.id, status, output, error, incompleteReason, model, usage, metadata);
    }

    method ResyncMetadata()
      modifies this`metadata
      ensures metadata == SyncMetadata(info, model, old(metadata))
    {
      var meta := metadata;
      if info.sessionId != "" {
        meta := meta[SessionIdKey := Text(info.sessionId)];
      }
      if info.harnessId != "" {
        meta := meta[HarnessIdKey := Text(info.harnessId)];
      }
      if info.timeoutSeconds > 0 {
        meta := meta[TimeoutSecondsKey := Number(info.timeoutSeconds)];
      }
      if info.maxStep.Some? {
        meta := meta[MaxStepKey := Number(info.maxStep.value)];
      } else {
        meta := meta - {MaxStepKey};
      }
      if |info.ignoredFields| > 0 {
        meta := meta[IgnoredFieldsKey := Names(info.ignoredFields)];
      } else {
        meta := meta - {IgnoredFieldsKey};
      }
      if info.requestedModel != "" && info.requestedModel != model {
        meta := meta[RequestedModelKey := Text(info.requestedModel)];
        meta := meta[ModelFallbackKey := Flag(true)];
      } else {
        meta := meta - {RequestedModelKey, ModelFallbackKey};
      }
      metadata := meta;
    }

    /** Finds the message item by scanning the output. */
    method FindMessage() returns (i: nat)
      ensures i == MessageAt(output)
    {
      i := 0;
      while i < |output| && output[i].kind != Message
        invariant i <= |output|
        invariant forall j :: 0 <= j < i ==> output[j].kind != Message
      {
        i := i + 1;
      }
      MessageAtIs(output, i);
    }

    /** Appends a fragment, opening the message item when this is the first. */
    method Append(delta: string) returns (index: nat, itemId: string)
      modifies this`output
      ensures output == AppendText(info.id, old(output), delta)
      ensures index == MessageAt(output) < |output| && itemId == output[index].id
    {
      index := FindMessage();
      if index < |output| {
        var item := output[index];
        if |item.content| == 0 {
          item := item.(content := [ContentPart("", [])]);
        }
        var part := item.content[0];
        assert "" + delta == delta;
        item := item.(content := item.content[0 := part.(text := part.text + delta)]);
        assert item.content == WithText(old(output)[index], delta).content;
        output := output[index := item];
      } else {
        output := output + [OutputItem(MessageId(info.id), Message, ItemInProgress, [ContentPart(delta, [])])];
      }
      MessageAtIs(output, index);
      itemId := output[index].id;
    }

    /** The assistant text, collected item by item. */
    method CollectText() returns (text: string)
      ensures text == OutputText(output)
    {
      text := "";
      var i := 0;
      while i < |output|
        invariant i <= |output|
        invariant text + OutputText(output[i..]) == OutputText(output)
      {
        if output[i].kind == Message {
          var parts := output[i].content;
          ghost var before := text;
          var j := 0;
          while j < |parts|
            invariant j <= |parts|
            invariant text + PartsText(parts[j..]) == before + PartsText(parts)
          {
            PartsTextNext(parts, j, text);
            text := text + parts[j].text;
            j := j + 1;
          }
          assert text == before + PartsText(parts);
          OutputTextNext(output, i, before);
        }
        i := i + 1;
      }
      assert text + "" == text;
    }

    /** Attaches a citation to the message for every artifact not cited yet. */
    method Cite()
      modifies this`output
      ensures output == CiteOutput(old(output), artifacts)
    {
      if |artifacts| == 0 {
        return;
      }
      var i := FindMessage();
      if i == |output| || |output[i].content| == 0 {
        return;
      }
      var part := output[i].content[0];
      var annotations := part.annotations;
      var seen := set a | a in annotations;
      var k := 0;
      while k < |artifacts|
        invariant k <= |artifacts|
        invariant forall a :: a in seen <==> a in annotations
        invariant CiteAll(annotations, artifacts[k..]) == CiteAll(part.annotations, artifacts)
      {
        var id := artifacts[k].id;
        if id !in seen {
          seen := seen + {id};
          annotations := annotations + [id];
        }
        k := k + 1;
      }
      output := output[i := output[i].(content := output[i].content[0 := part.(annotations := annotations)])];
    }
  }
}
