/** The sending sides of the iOS connection and of the Python client. */
module PeerSenders {
  import opened Bytes
  import opened Framing

  /** What the write stream does when asked: it cannot accept bytes, it fails, or it
      takes some, possibly none. */
  datatype WriteResult = NoRoom | Failed | Took(count: nat)

  datatype Taken = Taken(bytes: Bytes, failed: bool)

  /** What a flush gets rid of. When the list of answers is used up there is no room. */
  function Take(pending: Bytes, results: seq<WriteResult>): Taken
    decreases |results|
  {
    if pending == [] || results == [] then Taken([], false)
    else
      match results[0]
      case NoRoom => Taken([], false)
      case Failed => Taken([], true)
      case Took(count) =>
        var k := if count > |pending| then |pending| else count;
        var later := Take(pending[k..], results[1..]);
        Taken(pending[..k] + later.bytes, later.failed)
  }

  /** How many answers come before the first that takes nothing more. */
  function TakeCount(results: seq<WriteResult>): (k: nat)
    ensures k <= |results| && (k < |results| ==> results[k].NoRoom? || results[k].Failed?)
    ensures forall i :: 0 <= i < k ==> results[i].Took?
  {
    if results == [] || !results[0].Took? then 0 else 1 + TakeCount(results[1..])
  }

  function TotalTaken(results: seq<WriteResult>): nat
  {
    if results == [] then 0 else (if results[0].Took? then results[0].count else 0) + TotalTaken(results[1..])
  }

  /** A flush takes from the front as much as the stream accepts before its first refusal,
      and fails exactly when bytes are left and that refusal is a failure. */
  lemma {:induction false} TakeIs(pending: Bytes, results: seq<WriteResult>)
    ensures var k := TakeCount(results);
            var room := TotalTaken(results[..k]);
            && Take(pending, results).bytes == (if room < |pending| then pending[..room] else pending)
            && Take(pending, results).failed == (room < |pending| && k < |results| && results[k].Failed?)
    decreases |results|
  {
    hide Take;
    var k := TakeCount(results);
    if pending == [] || results == [] {
      TakeNothing(pending, results);
      assert TotalTaken(results[..0]) == 0;
    } else if !results[0].Took? {
      TakeFirst(pending, results);
      assert TotalTaken(results[..0]) == 0;
    } else {
      var count := results[0].count;
      var room := TotalTaken(results[1..][..k - 1]);
      assert results[..k][1..] == results[1..][..k - 1];
      assert TotalTaken(results[..k]) == count + room;
      TakeFirst(pending, results);
      TakeIs(pending[if count > |pending| then |pending| else count..], results[1..]);
      hide TakeCount, TotalTaken;
      TakenTogether(pending, count, room);
    }
  }

  lemma TakenTogether(pending: Bytes, count: nat, room: nat)
    ensures count + room < |pending| ==> pending[..count] + pending[count..][..room] == pending[..count + room]
    ensures count <= |pending| ==> pending[..count] + pending[count..] == pending
  {
  }

  /** One answer of the stream. */
  lemma TakeStep(pending: Bytes, results: seq<WriteResult>, i: nat)
    requires pending != [] && i < |results|
    ensures var now := Take(pending, results[i..]);
            && (results[i].NoRoom? ==> now == Taken([], false))
            && (results[i].Failed? ==> now == Taken([], true))
            && (results[i].Took? ==>
                  var k := if results[i].count > |pending| then |pending| else results[i].count;
                  var later := Take(pending[k..], results[i + 1..]);
                  now == Taken(pending[..k] + later.bytes, later.failed))
  {
    hide Take;
    TakeFirst(pending, results[i..]);
    assert results[i..][0] == results[i];
    assert results[i..][1..] == results[i + 1..];
  }

  lemma TakeFirst(pending: Bytes, results: seq<WriteResult>)
    requires pending != [] && results != []
    ensures results[0].NoRoom? ==> Take(pending, results) == Taken([], false)
    ensures results[0].Failed? ==> Take(pending, results) == Taken([], true)
    ensures results[0].Took? ==>
              var k := if results[0].count > |pending| then |pending| else results[0].count;
              var later := Take(pending[k..], results[1..]);
              Take(pending, results) == Taken(pending[..k] + later.bytes, later.failed)
  {
  }

  lemma TakeNothing(pending: Bytes, results: seq<WriteResult>)
    requires pending == [] || results == []
    ensures Take(pending, results) == Taken([], false)
  {
  }

  /** One iOS connection. `network` is what the stream has taken so far and `accepted`
      the payloads sent before the connection closed. */
  class ServerConn {
    var pendingWrites: Bytes
    var closed: bool
    var network: Bytes
    ghost var accepted: seq<Bytes>

    /** Taken and pending bytes together are the encoding of what was sent; a closed
        connection has dropped the pending ones. */
    ghost predicate Valid()
      reads this
    {
      && network <= EncodeAll(accepted)
      && (closed ==> pendingWrites == [])
      && (!closed ==> network + pendingWrites == EncodeAll(accepted))
    }

    constructor ()
      ensures Valid() && !closed && network == [] && accepted == []
    {
      pendingWrites, closed, network, accepted := [], false, [], [];
    }

    method Close()
      requires Valid()
      modifies this
      ensures Valid() && closed
      ensures network == old(network) && accepted == old(accepted)
    {
      if closed {
        return;
      }
      closed := true;
      pendingWrites := [];
    }

    /** Hands the pending bytes to the stream until it has no more room or fails. */
    method FlushPendingWrites(results: seq<WriteResult>)
      requires Valid()
      modifies this
      ensures Valid()
      ensures accepted == old(accepted)
      ensures network == old(network) + Take(old(pendingWrites), results).bytes
      ensures closed == (old(closed) || Take(old(pendingWrites), results).failed)
      ensures var pending, k := old(pendingWrites), TakeCount(results);
              var room := TotalTaken(results[..k]);
              && network == old(network) + (if room < |pending| then pending[..room] else pending)
              && closed == (old(closed) || (room < |pending| && k < |results| && results[k].Failed?))
    {
      TakeIs(pendingWrites, results);
      hide Take, EncodeAll, TakeCount, TotalTaken;
      var i := 0;
      assert results[0..] == results;
      while |pendingWrites| > 0
        invariant Valid() && closed == old(closed) && accepted == old(accepted)
        invariant i <= |results|
        invariant network + Take(pendingWrites, results[i..]).bytes
               == old(network) + Take(old(pendingWrites), results).bytes
        invariant Take(pendingWrites, results[i..]).failed == Take(old(pendingWrites), results).failed
        decreases |results| - i
      {
        if i < |results| {
          TakeStep(pendingWrites, results, i);
        }
        if i == |results| || results[i].NoRoom? {
          break;
        }
        var result := results[i];
        i := i + 1;
        if result.Failed? {
          Close();
          return;
        }
        var written := if result.count > |pendingWrites| then |pendingWrites| else result.count;
        Associate(network, pendingWrites[..written], pendingWrites[written..]);
        Associate(network, pendingWrites[..written], Take(pendingWrites[written..], results[i..]).bytes);
        assert pendingWrites == pendingWrites[..written] + pendingWrites[written..];
        if written > 0 {
          network := network + pendingWrites[..written];
          pendingWrites := pendingWrites[written..];
        } else {
          assert pendingWrites[0..] == pendingWrites && network + [] == network;
        }
      }
      if pendingWrites == [] || i == |results| {
        TakeNothing(pendingWrites, results[i..]);
      }
    }

    /** Frames a payload and queues it; flushes at once on the network thread. */
    method SendData(payload: Bytes, onNetworkThread: bool, results: seq<WriteResult>)
      requires Valid()
      modifies this
      ensures Valid()
      ensures accepted == old(accepted) + if old(closed) then [] else [payload]
      ensures old(closed) || !onNetworkThread ==> network == old(network) && closed == old(closed)
      ensures !old(closed) && onNetworkThread ==>
                var taken := Take(old(pendingWrites) + Encode(payload), results);
                network == old(network) + taken.bytes && closed == taken.failed
    {
      if closed {
        return;
      }
      var frame := Header(|payload|);
      if |payload| > 0 {
        frame := frame + payload;
      }
      assert frame == Encode(payload);
      EncodeAllSnoc(accepted, payload);
      assert network + (pendingWrites + frame) == (network + pendingWrites) + frame;
      pendingWrites := pendingWrites + frame;
      accepted := accepted + [payload];
      if onNetworkThread {
        FlushPendingWrites(results);
      }
    }

    /** What the client's decoder makes of the bytes taken so far: a prefix of what was
        sent, and all of it once nothing is pending. */
    lemma TakenInOrder()
      requires Valid() && WithinLimit(accepted)
      ensures !Decode(network).overLimit
      ensures Decode(network).frames <= accepted
      ensures !closed && pendingWrites == [] ==> Decode(network).frames == accepted
    {
      var encoded := EncodeAll(accepted);
      hide Decode, EncodeAll;
      DecodePrefixOfEncoded(accepted, network, encoded[|network|..]);
      assert !closed && pendingWrites == [] ==> network + pendingWrites == network == encoded;
    }
  }

  /** `send_frames`: the frames joined into one piece, written at once. */
  method JoinFrames(payloads: seq<Bytes>) returns (blob: Bytes)
    ensures blob == EncodeAll(payloads)
    ensures WithinLimit(payloads) ==> Decode(blob) == Decoded(payloads, [], false)
  {
    blob := [];
    for i := 0 to |payloads|
      invariant blob == EncodeAll(payloads[..i])
    {
      assert payloads[..i + 1] == payloads[..i] + [payloads[i]];
      EncodeAllSnoc(payloads[..i], payloads[i]);
      blob := blob + Encode(payloads[i]);
    }
    assert payloads[..|payloads|] == payloads;
    if WithinLimit(payloads) {
      DecodeEncodeAll(payloads, []);
      DecodeEmpty();
      assert blob + [] == blob && payloads + [] == payloads;
    }
  }
}
