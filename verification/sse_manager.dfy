/** The server-sent-events client registry: one queue of pending frames per
    client, and the text frame written for each published event, in the
    event-stream format of section 9.2 (Server-sent events) of the WHATWG
    HTML Living Standard. */
module SseManager {
  import opened Common
  import opened Text

  /** Each registered client's queued frames, oldest first. */
  type Clients = map<string, seq<string>>

  /** `request_id or str(uuid.uuid4())`: an absent or empty request id is
      falsy and gives way to the freshly generated identifier. */
  function ClientId(requestId: Option<string>, freshId: string): (id: string)
    ensures requestId.Some? && requestId.value != "" ==> id == requestId.value
    ensures requestId.None? || requestId.value == "" ==> id == freshId
  {
    match requestId
    case Some(r) => if r != "" then r else freshId
    case None => freshId
  }

  /** `create_client`: the client gets an empty queue, replacing any queue it
      had; the other clients keep theirs. */
  function CreateClient(clients: Clients, requestId: Option<string>, freshId: string): (r: (Clients, string))
    ensures r.1 == ClientId(requestId, freshId)
    ensures r.0.Keys == clients.Keys + {r.1} && r.0[r.1] == []
    ensures forall k :: k in clients && k != r.1 ==> r.0[k] == clients[k]
  {
    var id := ClientId(requestId, freshId);
    (clients[id := []], id)
  }

  /** `remove_client`: drops that one client; an unknown id changes nothing. */
  function RemoveClient(clients: Clients, id: string): (r: Clients)
    ensures id !in clients ==> r == clients
    ensures r.Keys == clients.Keys - {id}
    ensures forall k :: k in r ==> r[k] == clients[k]
  {
    if id in clients then clients - {id} else clients
  }

  /** Removing a client just created with a new id restores the registry
      it was created in. */
  lemma RemoveUndoesCreate(clients: Clients, requestId: Option<string>, freshId: string)
    requires ClientId(requestId, freshId) !in clients
    ensures var (created, id) := CreateClient(clients, requestId, freshId);
      RemoveClient(created, id) == clients
  {
  }

  /** Once removed, a client receives nothing: publishing to it is a no-op. */
  lemma RemovedClientGetsNothing(clients: Clients, id: string, eventType: string, data: string, retry: Option<int>)
    ensures PublishEvent(RemoveClient(clients, id), id, eventType, data, retry) == RemoveClient(clients, id)
  {
  }

  /** Python's truth value of the `retry` argument: `None` and `0` are false. */
  predicate Truthy(retry: Option<int>)
  {
    retry.Some? && retry.value != 0
  }

  /** The text lines of one frame, without their line feeds. */
  function FrameLines(eventType: string, data: string, retry: Option<int>): seq<string>
  {
    ["event: " + eventType]
    + DataLines(Split(data, '\n'))
    + (if Truthy(retry) then ["retry: " + IntToString(retry.value)] else [])
  }

  function DataLines(pieces: seq<string>): (lines: seq<string>)
    ensures |lines| == |pieces|
    ensures forall k :: 0 <= k < |pieces| ==> lines[k] == "data: " + pieces[k]
  {
    if |pieces| == 0 then [] else ["data: " + pieces[0]] + DataLines(pieces[1..])
  }

  /** Every line followed by a line feed. */
  function Lines(ls: seq<string>): string
  {
    if |ls| == 0 then "" else ls[0] + "\n" + Lines(ls[1..])
  }

  /** The frame `publish_event` queues: the event line, one data line per
      line of the payload, the retry line when `retry` is truthy, and the
      empty line that ends the event. */
  function Frame(eventType: string, data: string, retry: Option<int>): string
  {
    Lines(FrameLines(eventType, data, retry)) + "\n"
  }

  /** `publish_event`: appends one frame to that client's queue; an unknown
      client, and every other client, is left as it was. */
  function PublishEvent(clients: Clients, id: string, eventType: string, data: string, retry: Option<int>): (r: Clients)
    ensures id !in clients ==> r == clients
    ensures r.Keys == clients.Keys
    ensures id in clients ==> r[id] == clients[id] + [Frame(eventType, data, retry)]
    ensures forall k :: k in clients && k != id ==> r[k] == clients[k]
  {
    if id !in clients then clients else clients[id := clients[id] + [Frame(eventType, data, retry)]]
  }

  /** The JSON values a progress payload carries. */
  datatype JsonValue = JsonInt(i: int) | JsonString(s: string)

  /** The `publish_progress` dictionary, as its key/value pairs in insertion order. */
  function ProgressPayload(step: int, message: string, percentage: Option<int>, status: string): (p: seq<(string, JsonValue)>)
    ensures |p| >= 3 && p[0] == ("step", JsonInt(step)) && p[1] == ("message", JsonString(message))
    ensures p[2] == ("status", JsonString(status))
    ensures percentage.Some? <==> |p| == 4
    ensures percentage.Some? ==> p[3] == ("percentage", JsonInt(percentage.value))
  {
    [("step", JsonInt(step)), ("message", JsonString(message)), ("status", JsonString(status))]
    + (if percentage.Some? then [("percentage", JsonInt(percentage.value))] else [])
  }

  /** `publish_progress`: a "progress" event whose data is the JSON text of
      the payload; JSON encoding itself is the `dumps` parameter. */
  function PublishProgress(clients: Clients, id: string, step: int, message: string, percentage: Option<int>,
                           status: string, dumps: seq<(string, JsonValue)> -> string): (r: Clients)
    ensures r.Keys == clients.Keys
    ensures id in clients ==> r[id] == clients[id] + [Frame("progress", dumps(ProgressPayload(step, message, percentage, status)), None)]
    ensures forall k :: k in clients && k != id ==> r[k] == clients[k]
  {
    PublishEvent(clients, id, "progress", dumps(ProgressPayload(step, message, percentage, status)), None)
  }

  // ----- What a client reads back from a frame -----

  predicate IsDataLine(line: string)
  {
    |line| >= 6 && line[..6] == "data: "
  }

  /** The values of the data lines, in order. */
  function DataValues(lines: seq<string>): seq<string>
  {
    if |lines| == 0 then []
    else (if IsDataLine(lines[0]) then [lines[0][6..]] else []) + DataValues(lines[1..])
  }

  /** The data a listener assembles from a frame this manager writes: the
      values of its data lines joined by line feeds. Frames from elsewhere
      may also end lines with a carriage return or omit the space after
      `data:`; those are not considered here. */
  function ReceivedData(frame: string): string
  {
    Join(DataValues(Split(frame, '\n')), '\n')
  }

  lemma {:induction false} DataValuesAppend(a: seq<string>, b: seq<string>)
    ensures DataValues(a + b) == DataValues(a) + DataValues(b)
    decreases |a|
  {
    if |a| == 0 {
      assert a + b == b;
    } else {
      assert (a + b)[1..] == a[1..] + b;
      DataValuesAppend(a[1..], b);
    }
  }

  lemma {:induction false} DataValuesOfDataLines(pieces: seq<string>)
    ensures DataValues(DataLines(pieces)) == pieces
    decreases |pieces|
  {
    if |pieces| > 0 {
      var lines := DataLines(pieces);
      assert lines[0][6..] == pieces[0];
      assert lines[1..] == DataLines(pieces[1..]);
      DataValuesOfDataLines(pieces[1..]);
    }
  }

  /** Lines without line feeds split back into themselves, plus the empty
      piece after the last line feed. */
  lemma {:induction false} SplitLines(ls: seq<string>)
    requires forall k :: 0 <= k < |ls| ==> '\n' !in ls[k]
    ensures Split(Lines(ls), '\n') == ls + [""]
    decreases |ls|
  {
    if |ls| == 0 {
    } else {
      SplitLines(ls[1..]);
      SplitAtFirstSeparator(ls[0], '\n', Lines(ls[1..]));
      assert Lines(ls) == ls[0] + ['\n'] + Lines(ls[1..]);
      assert ls == [ls[0]] + ls[1..];
    }
  }

  lemma LinesAppendEmpty(ls: seq<string>)
    ensures Lines(ls) + "\n" == Lines(ls + [""])
  {
    if |ls| > 0 {
      assert (ls + [""])[1..] == ls[1..] + [""];
      LinesAppendEmpty(ls[1..]);
    }
  }

  lemma NoNewlineInNumber(n: int)
    ensures '\n' !in IntToString(n)
  {
    var r := IntToString(n);
    if n < 0 {
      assert r == [r[0]] + r[1..];
    }
  }

  /** Every line of a frame is free of line feeds (the event type given). */
  lemma FrameLinesHaveNoNewline(eventType: string, data: string, retry: Option<int>)
    requires '\n' !in eventType
    ensures var ls := FrameLines(eventType, data, retry);
      forall k :: 0 <= k < |ls| ==> '\n' !in ls[k]
  {
    var ls := FrameLines(eventType, data, retry);
    assert '\n' !in "event: " + eventType;
    if Truthy(retry) {
      NoNewlineInNumber(retry.value);
      assert '\n' !in "retry: " + IntToString(retry.value);
    }
  }

  /** The frame splits at its line feeds into its lines and two empty pieces. */
  lemma FrameSplits(eventType: string, data: string, retry: Option<int>)
    requires '\n' !in eventType
    ensures Split(Frame(eventType, data, retry), '\n') == FrameLines(eventType, data, retry) + ["", ""]
  {
    var ls := FrameLines(eventType, data, retry);
    FrameLinesHaveNoNewline(eventType, data, retry);
    assert forall k :: 0 <= k < |ls + [""]| ==> '\n' !in (ls + [""])[k];
    LinesAppendEmpty(ls);
    SplitLines(ls + [""]);
    assert ls + [""] + [""] == ls + ["", ""];
  }

  lemma NotDataLine(line: string)
    requires |line| >= 1 && line[0] != 'd'
    ensures DataValues([line]) == []
  {
    assert !IsDataLine(line) by {
      if |line| >= 6 {
        assert line[..6][0] == line[0];
      }
    }
  }

  /** Only the data lines carry values, and they carry the payload's lines. */
  lemma FrameDataValues(eventType: string, data: string, retry: Option<int>)
    ensures DataValues(FrameLines(eventType, data, retry) + ["", ""]) == Split(data, '\n')
  {
    var pieces := Split(data, '\n');
    var event := ["event: " + eventType];
    var dataLines := DataLines(pieces);
    var retryLines := if Truthy(retry) then ["retry: " + IntToString(retry.value)] else [];
    assert FrameLines(eventType, data, retry) + ["", ""] == event + (dataLines + (retryLines + ["", ""]));
    DataValuesAppend(event, dataLines + (retryLines + ["", ""]));
    DataValuesAppend(dataLines, retryLines + ["", ""]);
    DataValuesAppend(retryLines, ["", ""]);
    DataValuesOfDataLines(pieces);
    NotDataLine("event: " + eventType);
    if Truthy(retry) {
      NotDataLine("retry: " + IntToString(retry.value));
    }
    assert DataValues(["", ""]) == [];
  }

  /** A listener reading a published frame gets back exactly the data that
      was published, however many lines it has. */
  lemma FrameRoundTrip(eventType: string, data: string, retry: Option<int>)
    requires '\n' !in eventType
    ensures ReceivedData(Frame(eventType, data, retry)) == data
  {
    FrameSplits(eventType, data, retry);
    FrameDataValues(eventType, data, retry);
    JoinSplit(data, '\n');
  }

  /** The frame opens with the event line and ends with an empty line. */
  lemma FrameEnvelope(eventType: string, data: string, retry: Option<int>)
    ensures var f := Frame(eventType, data, retry);
      && |f| >= |eventType| + 10
      && f[..|eventType| + 8] == "event: " + eventType + "\n"
      && f[|f| - 2..] == "\n\n"
  {
    var ls := FrameLines(eventType, data, retry);
    var f := Frame(eventType, data, retry);
    assert Lines(ls) == ls[0] + "\n" + Lines(ls[1..]);
    LastLine(ls);
  }

  lemma LastLine(ls: seq<string>)
    requires |ls| > 0
    ensures |Lines(ls)| >= 1 && Lines(ls)[|Lines(ls)| - 1] == '\n'
  {
    if |ls| > 1 {
      LastLine(ls[1..]);
    }
  }

  /** One data line per line of the payload, and a retry line exactly when
      `retry` is truthy. */
  lemma FrameLineCounts(eventType: string, data: string, retry: Option<int>)
    ensures |FrameLines(eventType, data, retry)| == 2 + Occurrences(data, '\n') + (if Truthy(retry) then 1 else 0)
  {
    SplitCount(data, '\n');
  }
}
