/**
 spmap/spmap.go in its own form: the cache and the queue are updated in place,
 and response channels are objects that Get hands out and the worker answers.
 Calls run one after another here; their interleavings are in SPMapProtocol.
 */
module SPMaps {
  import Instruments
  import opened SPMapProtocol

  // chan string with room for one value, made by one Get
  class Response {
    var buf: seq<string>
    var closed: bool

    constructor ()
      ensures buf == [] && !closed
    {
      buf, closed := [], false;
    }

    method Send(v: string)
      requires !closed && buf == []
      modifies this
      ensures buf == [v] && !closed
    {
      buf := [v];
    }

    method CloseChannel()
      requires !closed
      modifies `closed
      ensures closed
    {
      closed := true;
    }
  }

  datatype Work = Work(query: Peer, response: Response)

  /** The results of answering these works with these replies. */
  function Results(works: seq<Work>, replies: seq<Reply>): seq<(Peer, Reply)>
    requires |works| <= |replies|
  {
    seq(|works|, i requires 0 <= i < |works| => (works[i].query, replies[i]))
  }

  lemma {:induction false} SizeOverwritten(cache: map<Peer, Reply>, id: Peer, val: Reply)
    ensures |cache[id := val]| == |cache| + if id in cache then 0 else 1
  {
    var after := cache[id := val];
    assert after.Keys == cache.Keys + {id};
    assert |after| == |after.Keys| && |cache| == |cache.Keys|;
  }

  lemma {:induction false} SizeEvicted(cache: map<Peer, Reply>, victim: Peer)
    requires victim in cache
    ensures |cache - {victim}| == |cache| - 1
  {
    var after := cache - {victim};
    assert after.Keys == cache.Keys - {victim};
    assert |after| == |after.Keys| && |cache| == |cache.Keys|;
  }

  class SPMap {
    var cache: map<Peer, Reply>
    var c: seq<Work>
    var closed: bool

    /** The queued channels are distinct, open and empty, and both bounds hold. */
    ghost predicate Valid()
      reads this, set w | w in c :: w.response
    {
      && |c| <= 10 && |cache| <= 10_000
      && (forall i, j | 0 <= i < j < |c| :: c[i].response != c[j].response)
      && (forall i | 0 <= i < |c| :: c[i].response.buf == [] && !c[i].response.closed)
    }

    constructor ()
      ensures Valid() && cache == map[] && c == [] && !closed
    {
      cache, c, closed := map[], [], false;
    }

    /** cache.Add: overwrites, and makes room for a new entry by evicting one only if the cache is full. */
    method Set(id: Peer, val: Reply)
      requires |cache| <= 10_000
      modifies `cache
      ensures |cache| <= 10_000 && id in cache && cache[id] == val
      ensures forall p | p in cache && p != id :: p in old(cache) && cache[p] == old(cache)[p]
      ensures id in old(cache) || |old(cache)| < 10_000 ==> cache == old(cache)[id := val]
      ensures id !in old(cache) && |old(cache)| == 10_000 ==> |cache| == 10_000
    {
      if id !in cache && |cache| >= CACHE_SIZE {
        var victim: Peer :| victim in cache;
        SizeEvicted(cache, victim);
        cache := cache - {victim};
      }
      SizeOverwritten(cache, id, val);
      cache := cache[id := val];
    }

    /**
     A hit is answered at once from the cache; a miss is queued if there is
     room, else answered with a closed, empty channel. After Close a miss
     panics: it sends on the closed queue.
     */
    method Get(id: Peer) returns (resp: Response, panicked: bool)
      requires Valid()
      modifies `c
      ensures Valid() && fresh(resp)
      ensures panicked <==> id !in cache && closed
      ensures id in cache ==> resp.closed && resp.buf == (if cache[id] == [] then [] else [cache[id][0]]) && c == old(c)
      ensures id !in cache && !closed && |old(c)| < 10 ==>
        !resp.closed && resp.buf == [] && c == old(c) + [Work(id, resp)]
      ensures id !in cache && !closed && |old(c)| >= 10 ==> resp.closed && resp.buf == [] && c == old(c)
      ensures panicked ==> c == old(c)
    {
      resp := new Response();
      panicked := false;
      if id in cache {
        var vals := cache[id];
        if |vals| > 0 {
          resp.Send(vals[0]);
        }
        resp.CloseChannel();
        return;
      }
      if closed {
        panicked := true;
      } else if |c| < QUEUE_SIZE {
        c := c + [Work(id, resp)];
      } else {
        resp.CloseChannel();
      }
    }

    method Close() returns (panicked: bool)
      modifies `closed
      ensures closed && panicked == old(closed)
    {
      panicked := closed;
      closed := true;
    }

    /** One turn of the worker loop: the oldest work is answered with what heyfil replied. */
    method Answer(reply: Reply)
      requires Valid() && c != []
      modifies this, c[0].response
      ensures Valid() && closed == old(closed) && c == old(c)[1..]
      ensures old(c)[0].response.closed && old(c)[0].response.buf == if reply == [] then [] else [reply[0]]
      ensures old(c)[0].query in cache && cache[old(c)[0].query] == reply
      ensures forall p | p in cache && p != old(c)[0].query :: p in old(cache) && cache[p] == old(cache)[p]
    {
      var t := c[0];
      c := c[1..];
      Set(t.query, reply);
      if |reply| > 0 {
        t.response.Send(reply[0]);
      }
      t.response.CloseChannel();
    }

    /**
     The worker after Close: it drains the queue in order, every accepted call
     is answered with the head of its own reply, and what the cache then holds
     is the latest reply for the peer, or what was there before.
     */
    method Run(replies: seq<Reply>)
      requires Valid() && closed && |replies| == |c|
      modifies this, set w | w in c :: w.response
      ensures Valid() && c == []
      ensures forall i | 0 <= i < |old(c)| :: old(c)[i].response.closed && old(c)[i].response.buf == Head(replies[i])
      ensures CacheFollows(cache, Results(old(c), replies), old(cache))
    {
      ghost var works, before := c, cache;
      var i := 0;
      while c != []
        invariant 0 <= i <= |works| && c == works[i..] && Valid()
        invariant forall k | 0 <= k < i :: works[k].response.closed && works[k].response.buf == Head(replies[k])
        invariant CacheFollows(cache, Results(works, replies)[..i], before)
        decreases |c|
      {
        ghost var last := cache;
        Answer(replies[i]);
        CacheFollowsStep(last, cache, Results(works, replies), i, before);
        i := i + 1;
      }
      assert Results(works, replies)[..i] == Results(works, replies);
    }
  }

  /** A cached value is the latest result for its peer if there is one, else the value from before. */
  ghost predicate CacheFollows(cache: map<Peer, Reply>, results: seq<(Peer, Reply)>, before: map<Peer, Reply>) {
    forall p | p in cache ::
      var latest := LastResult(results, p);
      if latest.Some? then cache[p] == latest.value else p in before && before[p] == cache[p]
  }

  lemma {:induction false} CacheFollowsStep(
      last: map<Peer, Reply>, cache: map<Peer, Reply>, results: seq<(Peer, Reply)>, i: nat, before: map<Peer, Reply>)
    requires i < |results| && CacheFollows(last, results[..i], before)
    requires results[i].0 in cache && cache[results[i].0] == results[i].1
    requires forall p | p in cache && p != results[i].0 :: p in last && cache[p] == last[p]
    ensures CacheFollows(cache, results[..i + 1], before)
  {
    assert results[..i + 1] == results[..i] + [results[i]];
    forall p { LastResultStep(results[..i], results[i], p); }
  }
}
