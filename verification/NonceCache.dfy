/** The nonce cache of core/node/cache.go. Every operation holds the lock from start to end, so a
    concurrent run is a sequence of whole operations, interleaved in any way. */
module NonceCache {
  import opened Support

  /** `fetched` is what the sharders answer if they have to be asked; None is an error. */
  datatype Op =
    | GetNext(client: string, fetched: Option<int>)
    | Set(client: string, nonce: int)
    | Evict(client: string)

  type Cache = map<string, int>

  function Known(cache: Cache, client: string, fetched: Option<int>): int {
    if client in cache then cache[client] else if fetched.Some? then fetched.value else 0
  }

  function Apply(cache: Cache, op: Op): Cache {
    match op
    case GetNext(client, fetched) => cache[client := Known(cache, client, fetched) + 1]
    case Set(client, nonce) => cache[client := nonce]
    case Evict(client) => cache - {client}
  }

  function Run(cache: Cache, ops: seq<Op>): Cache {
    if ops == [] then cache else Apply(Run(cache, ops[..|ops| - 1]), ops[|ops| - 1])
  }

  /** The nonce the i-th operation of a run hands out. */
  function Issued(cache: Cache, ops: seq<Op>, i: nat): (nonce: int)
    requires i < |ops| && ops[i].GetNext?
  {
    Known(Run(cache, ops[..i]), ops[i].client, ops[i].fetched) + 1
  }

  function Requests(ops: seq<Op>, client: string): nat {
    if ops == [] then 0
    else
      var last := ops[|ops| - 1];
      Requests(ops[..|ops| - 1], client) + (if last.GetNext? && last.client == client then 1 else 0)
  }

  /** The client neither sets nor evicts its own nonce in this stretch. */
  ghost predicate OnlyAsks(ops: seq<Op>, client: string) {
    forall i :: 0 <= i < |ops| && ops[i].client == client ==> ops[i].GetNext?
  }

  /** Whatever other clients do, a cached nonce moves only with the client's own requests. */
  lemma {:induction false} CountsOwnRequests(cache: Cache, ops: seq<Op>, client: string)
    requires client in cache
    requires OnlyAsks(ops, client)
    ensures client in Run(cache, ops)
    ensures Run(cache, ops)[client] == cache[client] + Requests(ops, client)
  {
    if ops != [] {
      CountsOwnRequests(cache, ops[..|ops| - 1], client);
    }
  }

  lemma {:induction false} RunAppend(cache: Cache, a: seq<Op>, b: seq<Op>)
    ensures Run(cache, a + b) == Run(Run(cache, a), b)
  {
    if b == [] {
      assert a + b == a;
    } else {
      var m := |b| - 1;
      RunAppend(cache, a, b[..m]);
      assert (a + b)[..|a| + m] == a + b[..m];
    }
  }

  /** Between its own Set and Evict calls a client gets consecutive nonces: the one issued at j exceeds
      the one issued at i by the number of its requests after i up to j, so no two are equal. */
  lemma ConsecutiveNonces(cache: Cache, ops: seq<Op>, i: nat, j: nat)
    requires i < j < |ops|
    requires ops[i].GetNext? && ops[j].GetNext? && ops[i].client == ops[j].client
    requires OnlyAsks(ops[i..j], ops[i].client)
    ensures Issued(cache, ops, j) == Issued(cache, ops, i) + 1 + Requests(ops[i + 1..j], ops[i].client)
    ensures Issued(cache, ops, j) > Issued(cache, ops, i)
    ensures ops[i].client in Run(cache, ops[..i + 1])
    ensures Issued(cache, ops, i) == Run(cache, ops[..i + 1])[ops[i].client]
  {
    var client := ops[i].client;
    var after := Run(cache, ops[..i + 1]);
    assert ops[..i + 1][..i] == ops[..i];
    assert after[client] == Issued(cache, ops, i);
    assert ops[..j] == ops[..i + 1] + ops[i + 1..j];
    RunAppend(cache, ops[..i + 1], ops[i + 1..j]);
    var since := ops[i + 1..j];
    assert since == ops[i..j][1..];
    CountsOwnRequests(after, ops[i + 1..j], client);
  }

  class NonceCache {
    var cache: Cache

    constructor ()
      ensures cache == map[]
    {
      cache := map[];
    }

    method GetNextNonce(client: string, fetched: Option<int>) returns (nonce: int)
      modifies this
      ensures cache == Apply(old(cache), GetNext(client, fetched)) == old(cache)[client := nonce]
      ensures client in old(cache) ==> nonce == old(cache)[client] + 1
      ensures client !in old(cache) && fetched.Some? ==> nonce == fetched.value + 1
      ensures client !in old(cache) && fetched.None? ==> nonce == 1
    {
      if client !in cache {
        var n := 0;
        if fetched.Some? {
          n := fetched.value;
        }
        cache := cache[client := n];
      }
      cache := cache[client := cache[client] + 1];
      nonce := cache[client];
    }

    method Set(client: string, nonce: int)
      modifies this
      ensures cache == Apply(old(cache), Op.Set(client, nonce)) == old(cache)[client := nonce]
    {
      cache := cache[client := nonce];
    }

    method Evict(client: string)
      modifies this
      ensures cache == Apply(old(cache), Op.Evict(client)) == old(cache) - {client}
    {
      cache := cache - {client};
    }
  }
}
