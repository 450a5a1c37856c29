/** What the client does with a payload it has received. */
module Inbox {
  import opened Bytes
  import opened Framing
  import opened Json
  import opened JsonParse
  import opened Commands
  import opened Manager

  /** Unread values kept per callback name. */
  const MAX_CALLBACK_CACHE: nat := 128

  /** The channels a payload can go to. */
  datatype Channel =
    | Pong
    | Reply(frame: Value)
    | ApiList(items: seq<Value>)
    | Callback(name: Value, value: Value)
    | Ignored

  /** Where a payload goes; `root` is what reading it as JSON gave, if anything. */
  function Route(payload: Bytes, root: Option<Value>): Channel
  {
    if payload == PONG then Pong
    else if root.None? then Ignored
    else if root.value.Object? then
      if Get(root.value, TYPE) == String(CALLBACK) then Callback(Get(root.value, KEY), Get(root.value, VALUE))
      else Reply(root.value)
    else if root.value.Array? then ApiList(root.value.items)
    else Ignored
  }

  /** The last n elements. */
  function LastOf<T>(xs: seq<T>, n: nat): seq<T>
  {
    if |xs| <= n then xs else xs[|xs| - n..]
  }

  /** They are the longest suffix of at most n elements. */
  lemma LastOfIs<T>(xs: seq<T>, n: nat, k: nat)
    requires k <= |xs|
    ensures LastOf(xs, n) == xs[k..] <==> |xs[k..]| == if |xs| < n then |xs| else n
  {
  }

  lemma LastOfSnoc<T>(xs: seq<T>, x: T, n: nat)
    ensures var queue := LastOf(xs, n) + [x];
            LastOf(xs + [x], n) == if |queue| > n then queue[1..] else queue
  {
  }

  lemma LastOfOne<T>(x: T, n: nat)
    requires n > 0
    ensures LastOf([x], n) == [x]
  {
  }

  /** Dicts and lists cannot be dict keys. */
  predicate Hashable(v: Value)
  {
    !v.Array? && !v.Object?
  }

  /** `values` remembers, per name, all callback values ever received; the cache holds
      the latest of them. */
  class ClientInbox {
    var pongs: nat
    var responses: seq<Value>
    var apiLists: seq<seq<Value>>
    var cache: map<Value, seq<Value>>
    ghost var values: map<Value, seq<Value>>

    ghost predicate Valid()
      reads this
    {
      && cache.Keys == values.Keys
      && forall name :: name in cache ==> cache[name] == LastOf(values[name], MAX_CALLBACK_CACHE)
    }

    constructor ()
      ensures Valid() && pongs == 0 && responses == [] && apiLists == [] && cache == map[]
    {
      pongs, responses, apiLists, cache, values := 0, [], [], map[], map[];
    }

    /** A bounded queue per name, oldest values dropped; false where the name cannot be a
        key and the receive thread ends with an exception. */
    method HandleCallback(name: Value, value: Value) returns (ok: bool)
      requires Valid()
      modifies this`cache, this`values
      ensures Valid()
      ensures ok == !(name.Array? || name.Object?)
      ensures ok ==> values == old(values)[name := (if name in old(values) then old(values)[name] else []) + [value]]
      ensures !ok ==> cache == old(cache) && values == old(values)
    {
      hide LastOf;
      if !Hashable(name) {
        return false;
      }
      LastOfSnoc(if name in values then values[name] else [], value, MAX_CALLBACK_CACHE);
      LastOfOne(value, MAX_CALLBACK_CACHE);
      assert [] + [value] == [value];
      var queue := if name in cache then cache[name] else [];
      queue := queue + [value];
      if |queue| > MAX_CALLBACK_CACHE {
        queue := queue[1..];
      }
      cache := cache[name := queue];
      values := values[name := (if name in values then values[name] else []) + [value]];
      return true;
    }

    method DispatchPayload(payload: Bytes, root: Option<Value>) returns (ok: bool)
      requires Valid()
      modifies this
      ensures Valid()
      ensures var to := Route(payload, root);
              && pongs == old(pongs) + (if to.Pong? then 1 else 0)
              && responses == old(responses) + (if to.Reply? then [to.frame] else [])
              && apiLists == old(apiLists) + (if to.ApiList? then [to.items] else [])
              && ok == !(to.Callback? && (to.name.Array? || to.name.Object?))
              && (to.Callback? && ok ==>
                    values == old(values)[to.name :=
                      (if to.name in old(values) then old(values)[to.name] else []) + [to.value]])
              && (!to.Callback? || !ok ==> cache == old(cache) && values == old(values))
      ensures payload == PONG ==>
                pongs == old(pongs) + 1 && responses == old(responses) && apiLists == old(apiLists)
                && values == old(values)
      ensures payload != PONG ==> pongs == old(pongs)
      ensures payload != PONG && (root.None? || (!root.value.Object? && !root.value.Array?)) ==>
                responses == old(responses) && apiLists == old(apiLists) && values == old(values)
      ensures payload != PONG && root.Some? && root.value.Array? ==>
                apiLists == old(apiLists) + [root.value.items]
                && responses == old(responses) && values == old(values)
      ensures payload != PONG && root.Some? && root.value.Object? ==>
                apiLists == old(apiLists)
                && (Find(root.value, TYPE) != Some(String(CALLBACK)) ==>
                      responses == old(responses) + [root.value] && values == old(values))
                && (Find(root.value, TYPE) == Some(String(CALLBACK)) ==> responses == old(responses))
    {
      hide LastOf, FindMember;
      ok := true;
      if payload == PONG {
        pongs := pongs + 1;
        return;
      }
      if root.None? {
        return;
      }
      if root.value.Object? {
        if Get(root.value, TYPE) == String(CALLBACK) {
          ok := HandleCallback(Get(root.value, KEY), Get(root.value, VALUE));
        } else {
          responses := responses + [root.value];
        }
      } else if root.value.Array? {
        apiLists := apiLists + [root.value.items];
      }
    }
  }

  /** Everything the server sends reaches its channel: the heartbeat answer, and every
      reply with the key and value it was sent with. */
  lemma ServerFramesAreRouted(kind: Bytes, key: Bytes, value: Bytes)
    ensures Route(PONG, Parse(PONG)).Pong?
    ensures |ReplyText(kind, key, value)| <= MAX_PAYLOAD ==>
              var payload := ReplyText(kind, key, value);
              var to := Route(payload, Parse(payload));
              if kind == CALLBACK then to == Callback(String(key), String(value))
              else to.Reply? && Get(to.frame, TYPE) == String(kind)
                   && Get(to.frame, KEY) == String(key) && Get(to.frame, VALUE) == String(value)
  {
    if |ReplyText(kind, key, value)| <= MAX_PAYLOAD {
      var payload := ReplyText(kind, key, value);
      ReplyArrives(kind, key, value);
      hide ReplyText, Parse, ParseWithin, Decode, Encode, FindMember;
      if payload == PONG {
        PongIsNoReply();
      }
    }
  }

  /** What the client gets for any payload it sends: a heartbeat for PING, an empty API
      list for a query, an error with the key `parseError` and the text of the error for a
      frame that is not well-formed, and no answer to anything else. */
  lemma AnswersAreRouted(payload: Bytes, toInt: Truncation, what: Bytes)
    ensures var answer := AnswerTo(payload, toInt, what);
            && (payload == PING ==> answer.Some? && Route(answer.value, Parse(answer.value)) == Pong)
            && ([71, 69, 84, 95, 65, 80, 73, 58] <= payload ==>
                  answer.Some? && Route(answer.value, Parse(answer.value)) == ApiList([]))
            && (!IsSpecial(payload) && ParseFrame(payload, toInt).None? ==>
                  && answer.Some?
                  && (|answer.value| <= MAX_PAYLOAD ==>
                        var to := Route(answer.value, Parse(answer.value));
                        && to.Reply? && Find(to.frame, TYPE) == Some(String(ERROR))
                        && Find(to.frame, KEY) == Some(String(PARSE_ERROR))
                        && Find(to.frame, VALUE) == Some(String(what))))
            && (payload == PONG || (!IsSpecial(payload) && ParseFrame(payload, toInt).Some?) ==> answer.None?)
  {
    NoApisIsAList();
    SpecialTextsDiffer(payload);
    assert [71, 69, 84, 95, 65, 80, 73, 58] <= payload ==> payload[..8] == GET_API;
    hide ReplyText, ParseFrame, ParseWithin, Decode, Encode, FindMember;
    if !IsSpecial(payload) && ParseFrame(payload, toInt).None? && |ReplyText(ERROR, PARSE_ERROR, what)| <= MAX_PAYLOAD {
      assert ERROR[0] == 101 && CALLBACK[0] == 99;
      ServerFramesAreRouted(ERROR, PARSE_ERROR, what);
    }
  }

  lemma SpecialTextsDiffer(payload: Bytes)
    ensures PING != PONG
    ensures IsApiQuery(payload) ==> payload != PING && payload != PONG
  {
    assert PING[1] == 73 && PONG[1] == 79;
  }

  lemma NoApisIsAList()
    ensures Parse(NO_APIS) == Some(Array([])) && NO_APIS != PONG
  {
    assert NO_APIS[1..] == [93] && [93][1..] == [];
    assert NO_APIS[0] == 91 && PONG[0] == 80;
  }

  lemma PongIsNoReply()
    ensures Parse(PONG).None?
  {
  }
}
