/**
 The protocol objects that travel on a task's stream: a task's output items, the response
 snapshot an event carries, and the numbered event itself.
 */
module Protocol {
  import opened Wrappers

  datatype Status = InProgress | Completed | Failed | Cancelled | Incomplete

  predicate IsTerminalStatus(s: Status) {
    s != InProgress
  }

  datatype ErrorInfo = ErrorInfo(code: string, message: string)

  datatype ContentPart = ContentPart(text: string, annotations: seq<string>)

  datatype ItemKind = Message | OtherItem

  datatype ItemStatus = ItemInProgress | ItemCompleted

  datatype OutputItem = OutputItem(id: string, kind: ItemKind, status: ItemStatus, content: seq<ContentPart>)

  /** A key of the response's open `metadata` object: one this server writes, or a client's own. */
  datatype MetaKey =
    | SessionIdKey | HarnessIdKey | TimeoutSecondsKey | MaxStepKey | IgnoredFieldsKey
    | RequestedModelKey | ModelFallbackKey
    | ClientKey(name: string)

  datatype Meta = Text(s: string) | Number(n: int) | Flag(b: bool) | Names(names: seq<string>)

  /** The wire response an event carries: a snapshot, taken when the event was made. */
  datatype Response = Response(
    id: string,
    status: Status,
    output: seq<OutputItem>,
    error: Option<ErrorInfo>,
    incompleteReason: Option<string>,
    model: string,
    usage: Option<nat>,
    metadata: map<MetaKey, Meta>)

  datatype TerminalType = ResponseCompleted | ResponseIncomplete | ResponseFailed

  /** What an event says, apart from its number. */
  datatype Body =
    | ResponseCreated(response: Response)
    | OutputItemAdded(item: OutputItem, itemId: string, outputIndex: nat)
    | ContentPartAdded(itemId: string, outputIndex: nat, contentIndex: nat)
    | OutputTextDelta(delta: string, itemId: string, outputIndex: nat, contentIndex: nat)
    | OutputTextDone(text: string, itemId: string, outputIndex: nat, contentIndex: nat)
    | ContentPartDone(part: ContentPart, itemId: string, outputIndex: nat, contentIndex: nat)
    | OutputItemDone(item: OutputItem, itemId: string, outputIndex: nat)
    | Terminal(kind: TerminalType, response: Response)
    | GapNotice(oldest: nat)    // the error that ends a feed's connection; never on a log

  /** One numbered event. A run's own stream leaves the two attribution fields empty. */
  datatype Event = Event(seqNo: nat, body: Body, responseId: string, sessionId: string)

  function Numbered(n: nat, body: Body): Event {
    Event(n, body, "", "")
  }

  ghost predicate Increasing(events: seq<Event>) {
    forall i, j :: 0 <= i < j < |events| ==> events[i].seqNo < events[j].seqNo
  }

  /** Event number i stands at position i: no number is missing. */
  ghost predicate Gapless(events: seq<Event>) {
    forall i :: 0 <= i < |events| ==> events[i].seqNo == i
  }

  function Bodies(events: seq<Event>): (bodies: seq<Body>)
    ensures |bodies| == |events|
    ensures forall i :: 0 <= i < |events| ==> bodies[i] == events[i].body
  {
    seq(|events|, i requires 0 <= i < |events| => events[i].body)
  }

  /** A stream's counter: hands out 0, 1, 2, ... */
  class Sequencer {
    var n: nat

    constructor ()
      ensures n == 0
    {
      n := 0;
    }

    method Next(body: Body) returns (ev: Event)
      modifies this
      ensures ev == Numbered(old(n), body)
      ensures n == old(n) + 1
    {
      ev := Numbered(n, body);
      n := n + 1;
    }
  }
}
