/** The layers put together: from a batch in the client to calls in the application, and
    from a callback object in the application back to the client. */
module EndToEnd {
  import opened Bytes
  import opened Framing
  import FrameCodec
  import opened Json
  import opened JsonParse
  import opened JsonText
  import opened Commands
  import opened Client
  import opened ClientForms
  import opened Dispatch
  import opened Arguments
  import Network
  import EventLoop
  import LoopRuns
  import Lifecycle
  import ServerRuns
  import ServerCalls
  import Manager
  import Inbox

  /** The payload a batch is sent as. */
  function BatchText(batch: seq<Value>): Bytes
    requires NormalizeAll(batch).Some? && PlainItems(NormalizeAll(batch).value)
  {
    Text(Array(NormalizeAll(batch).value))
  }

  ghost predicate Sendable(batch: seq<Value>)
  {
    && (forall c <- batch :: GoodItem(c))
    && NormalizeAll(batch).Some? && PlainItems(NormalizeAll(batch).value)
    && Depth(Array(NormalizeAll(batch).value)) <= MAX_DEPTH
    && |BatchText(batch)| <= MAX_PAYLOAD
  }

  /** One command per item, in order, each as the client meant it. */
  ghost predicate Meant(batch: seq<Value>, commands: seq<Command>)
    requires Sendable(batch)
  {
    |commands| == |batch| && forall i :: 0 <= i < |batch| ==> ItemUnderstood(batch[i], commands[i])
  }

  /** A batch is a command frame, never one of the special texts, and is understood. */
  lemma BatchIsAFrame(batch: seq<Value>, toInt: Truncation)
    requires Sendable(batch)
    ensures var commands := Manager.DispatchedBy(BatchText(batch), toInt);
            commands.Some? && Meant(batch, commands.value)
  {
    ItemsAreUnderstood(batch, toInt);
    assert BatchText(batch)[0] == OPEN_BRACKET by {
      hide NormalizeAll, PlainItems, ItemsText, GoodItem, Depth;
    }
    hide ParseFrame, BatchText, ItemUnderstood, NormalizeAll, PlainItems, GoodItem, Depth;
    assert Manager.PING[0] == Manager.PONG[0] == 80 && Manager.GET_API[0] == 71;
  }

  /** The calls for the background commands of a batch carry its background items. */
  lemma BatchIsCarried(batch: seq<Value>, texts: ServerRuns.Texts)
    requires Sendable(batch)
    ensures var commands := Manager.DispatchedBy(BatchText(batch), texts.toInt);
            && commands.Some?
            && AllCarried(BackgroundItems(batch), ServerCalls.CallsFor(Keep(commands.value, InBackground), texts))
  {
    BatchIsAFrame(batch, texts.toInt);
    var commands := Manager.DispatchedBy(BatchText(batch), texts.toInt).value;
    var sent := NormalizeAll(batch).value;
    NormalizeAllItems(batch);
    BatchArrives(sent, texts.toInt);
    hide ParseItems, NormItems, NormalizeAll, PlainItems, GoodItem, ItemUnderstood, RawReads, Depth, ParseFrame, Text;
    assert ParseItems(NormItems(sent), texts.toInt) == Some(commands);
    forall i | 0 <= i < |batch|
      ensures RawReads(commands[i])
    {
      RawsOfBatch(sent, texts.toInt, i);
    }
    BackgroundIsCarried(batch, commands, texts);
  }

  /** On any connection that carries payloads within the limit: once the last byte of a
      batch has been read, however the bytes were cut, the message callback has got this
      batch in its place, and it is dispatched as the client meant it. */
  lemma BatchReachesTheParser(
      events: seq<EventLoop.Event>, id: nat, payloads: seq<Bytes>, i: nat, batch: seq<Value>, toInt: Truncation)
    requires WithinLimit(payloads) && i < |payloads| && Sendable(batch) && payloads[i] == BatchText(batch)
    requires var l := EventLoop.Runs(EventLoop.AtStart(), events);
             var read := Concat(Network.Seen(l.net.trace, Network.Read, id));
             !l.phase.Delivering? && EncodeAll(payloads[..i + 1]) <= read <= EncodeAll(payloads)
    ensures var got := Network.Seen(EventLoop.Runs(EventLoop.AtStart(), events).net.trace, Network.HandedOn, id);
            i < |got| && got[i] == BatchText(batch)
    ensures var commands := Manager.DispatchedBy(BatchText(batch), toInt);
            commands.Some? && Meant(batch, commands.value)
  {
    LoopRuns.StartKeeps();
    LoopRuns.RunsKeep(EventLoop.AtStart(), events);
    BatchIsAFrame(batch, toInt);
    hide EventLoop.Runs, LoopRuns.Inv, Network.Seen, EncodeAll, Concat;
    hide Sendable, Meant, BatchText, Manager.DispatchedBy;
    var l := EventLoop.Runs(EventLoop.AtStart(), events);
    LoopRuns.ReceivedOnceRead(l, id, payloads, i);
    assert Network.Seen(l.net.trace, Network.HandedOn, id)[i] == payloads[..i + 1][i];
  }

  /** From the client's batch to the application's calls: a batch anywhere in the stream
      of any connection, all of whose bytes have been read, has been dispatched as the
      client meant it, and when `stop` has returned each background item of it has been
      called exactly once, those of one group in array order, with the invocation
      registered: the calls received for this frame carry the arguments of its background
      items, one for one and in their order; whatever else the server was doing, and
      however it was scheduled. */
  lemma BatchIsCalledOnce(
      threadCount: nat, events: seq<ServerRuns.ServerEvent>, texts: ServerRuns.Texts,
      id: nat, payloads: seq<Bytes>, i: nat, batch: seq<Value>)
    requires WithinLimit(payloads) && i < |payloads| && Sendable(batch) && payloads[i] == BatchText(batch)
    requires var s := ServerRuns.Steps(ServerRuns.Started(threadCount), events, texts);
             var read := Concat(Network.Seen(s.loop.net.trace, Network.Read, id));
             s.mgr.phase == Lifecycle.Stopped && EncodeAll(payloads[..i + 1]) <= read <= EncodeAll(payloads)
    ensures var s := ServerRuns.Steps(ServerRuns.Started(threadCount), events, texts);
            var commands := Manager.DispatchedBy(BatchText(batch), texts.toInt);
            commands.Some? && Meant(batch, commands.value)
            && ServerRuns.PayloadCalled(s, id, i, texts.toInt, commands.value)
            && AllCarried(BackgroundItems(batch),
                          ServerCalls.CallsOfFrame(s, ServerRuns.FrameFor(s, id, i, texts.toInt)))
  {
    BatchIsAFrame(batch, texts.toInt);
    BatchIsCarried(batch, texts);
    ServerCalls.CallsAreMeant(threadCount, events, texts);
    hide ServerRuns.Steps, ServerRuns.Started, Network.Seen, EncodeAll, Concat, Sendable, Meant, BatchText;
    hide Manager.DispatchedBy, AllCarried, ServerCalls.CallsOk, ServerCalls.CallsOfFrame, ServerRuns.FrameFor;
    hide Lifecycle.CalledInFull, BackgroundItems;
    ServerRuns.BytesAreCalledOnce(threadCount, events, texts, id, payloads, i);
    var s := ServerRuns.Steps(ServerRuns.Started(threadCount), events, texts);
    ServerCalls.FrameCalls(s, ServerRuns.FrameFor(s, id, i, texts.toInt), texts);
  }

  /** From the application back to the client: on any connection that carries payloads
      within the limit, every frame the client's decoder has produced is the payload
      queued in its place; if that was a callback, it is routed to its name, and reading
      its value gives the object back, exactly when it is nested at most 200 deep. */
  lemma CallbackReachesTheClient(
      events: seq<EventLoop.Event>, id: nat, chunks: seq<Bytes>, i: nat, key: Bytes, json: Value)
    requires json.Object? && Plain(json) && Sorted(json)
    requires var n := EventLoop.Runs(EventLoop.AtStart(), events).net;
             var queued := Network.Seen(n.trace, Network.Accepted, id);
             && WithinLimit(queued)
             && Concat(chunks) <= Concat(Network.Seen(n.trace, Network.Written, id))
             && i < |queued| && queued[i] == Manager.ReplyText(Manager.CALLBACK, key, Text(json))
    ensures var queued := Network.Seen(EventLoop.Runs(EventLoop.AtStart(), events).net.trace, Network.Accepted, id);
            var frames := FrameCodec.Run(chunks).frames;
            && frames <= queued
            && (i < |frames| ==>
                  Inbox.Route(frames[i], Parse(frames[i])) == Inbox.Callback(String(key), String(Text(json))))
    ensures Parse(Text(json)) == if Depth(json) <= MAX_DEPTH then Some(json) else None
  {
    hide FrameCodec.Run, Text, Manager.ReplyText, Parse, ParseWithin, Depth, Plain, Sorted, Concat, Inbox.Route;
    hide EventLoop.Runs, Network.Seen;
    var queued := Network.Seen(EventLoop.Runs(EventLoop.AtStart(), events).net.trace, Network.Accepted, id);
    assert queued[i] in queued;
    LoopRuns.DeliveredInOrder(events, id, chunks);
    Inbox.ServerFramesAreRouted(Manager.CALLBACK, key, Text(json));
    ParseText(json);
  }
}
