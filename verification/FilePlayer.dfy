/** FilePlayer of wasmsdk/player_file.go: which blocks are downloaded, in what order, and which bytes are
    played. */
module FilePlayer {
  import opened Support
  import opened Streams

  const DEFAULT_CHUNK_SIZE: nat := 65536

  // ----- how many blocks a file has -----

  /** The bytes one block holds over all data shards. */
  function BlockSize(dataShards: nat): nat {
    dataShards * DEFAULT_CHUNK_SIZE
  }

  function TotalBlocks(actualSize: nat, dataShards: nat): nat
    requires dataShards >= 1
  {
    var effectivePerShardSize := CeilDiv(actualSize, dataShards);
    CeilDiv(effectivePerShardSize, DEFAULT_CHUNK_SIZE)
  }

  /** Rounding up twice gives the least number of blocks that hold the file. */
  lemma LeastBlocks(actualSize: nat, dataShards: nat, n: nat)
    requires dataShards >= 1
    ensures TotalBlocks(actualSize, dataShards) <= n <==> actualSize <= n * BlockSize(dataShards)
    ensures BlockSize(dataShards) == dataShards * 65536
  {
    CeilDivIsLeast(CeilDiv(actualSize, dataShards), DEFAULT_CHUNK_SIZE, n);
    CeilDivIsLeast(actualSize, dataShards, n * DEFAULT_CHUNK_SIZE);
    assert n * DEFAULT_CHUNK_SIZE * dataShards == n * BlockSize(dataShards);
  }

  // ----- which blocks are asked for -----

  /** Blocks first to last, both included. */
  datatype Interval = Interval(first: int, last: int)

  function BlockNumbers(first: int, last: int): (s: seq<int>) {
    seq(if first <= last then last - first + 1 else 0, k => first + k)
  }

  /** The block numbers asked for, in order. */
  function Asked(requests: seq<Interval>): seq<int> {
    if requests == [] then []
    else BlockNumbers(requests[0].first, requests[0].last) + Asked(requests[1..])
  }

  predicate InRange(r: Interval, blocks: nat) {
    1 <= r.first <= r.last <= blocks
  }

  predicate AllInRange(requests: seq<Interval>, blocks: nat) {
    forall k :: 0 <= k < |requests| ==> InRange(requests[k], blocks)
  }

  /** The requests of a download that goes on at `start`; `cancelled` says at which blocks the loop finds
      its context done. */
  function Requests(start: int, step: nat, last: nat, cancelled: int -> bool): (requests: seq<Interval>)
    requires step >= 1
    ensures start >= 1 ==> AllInRange(requests, last)
    decreases last - start
  {
    if start > last || cancelled(start) then []
    else [Interval(start, Min(start + step - 1, last))] + Requests(start + step, step, last, cancelled)
  }

  ghost predicate NeverCancelled(cancelled: int -> bool) {
    forall block: int :: !cancelled(block)
  }

  /** The requests follow each other without gap or overlap: what was asked for is an initial part of
      start..last, and all of it unless the player was stopped. */
  lemma {:induction false} RequestsTile(start: int, step: nat, last: nat, cancelled: int -> bool)
    requires step >= 1
    ensures Asked(Requests(start, step, last, cancelled)) <= BlockNumbers(start, last)
    ensures NeverCancelled(cancelled) ==> Asked(Requests(start, step, last, cancelled)) == BlockNumbers(start, last)
    decreases last - start
  {
    if start <= last && !cancelled(start) {
      RequestsTile(start + step, step, last, cancelled);
      var end, rest := Min(start + step - 1, last), Requests(start + step, step, last, cancelled);
      assert Requests(start, step, last, cancelled)[1..] == rest;
      assert BlockNumbers(start, end) + BlockNumbers(start + step, last) == BlockNumbers(start, last);
    }
  }

  /** No request asks for more than `step` blocks, and only the last may ask for fewer. */
  lemma {:induction false} RequestAt(start: int, step: nat, last: nat, cancelled: int -> bool, k: nat)
    requires step >= 1 && k < |Requests(start, step, last, cancelled)|
    ensures Requests(start, step, last, cancelled)[k]
         == Interval(start + k * step, Min(start + k * step + step - 1, last))
    ensures start + k * step <= last && !cancelled(start + k * step)
    decreases k
  {
    if k > 0 {
      RequestAt(start + step, step, last, cancelled, k - 1);
      assert start + step + (k - 1) * step == start + k * step;
    }
  }

  /** The requests go on until all blocks are asked for or the context is done. */
  lemma {:induction false} RequestsGoOn(start: int, step: nat, last: nat, cancelled: int -> bool)
    requires step >= 1
    ensures var next := start + |Requests(start, step, last, cancelled)| * step; next > last || cancelled(next)
    decreases last - start
  {
    if start <= last && !cancelled(start) {
      RequestsGoOn(start + step, step, last, cancelled);
      var n := |Requests(start + step, step, last, cancelled)|;
      assert start + step + n * step == start + (n + 1) * step;
    }
  }

  // ----- which bytes arrive -----

  /** downloadBlocks: the bytes of consecutive blocks; block n is remote[n - 1]. */
  function Download<B>(remote: seq<seq<B>>, r: Interval): seq<B>
    requires InRange(r, |remote|)
  {
    Flatten(remote[r.first - 1..r.last])
  }

  /** What the requests put into the channel; `arrives` says for which first block a download succeeds. */
  function Arrived<B>(remote: seq<seq<B>>, requests: seq<Interval>, arrives: int -> bool): seq<seq<B>>
    requires AllInRange(requests, |remote|)
  {
    if requests == [] then []
    else (if arrives(requests[0].first) then [Download(remote, requests[0])] else [])
         + Arrived(remote, requests[1..], arrives)
  }

  /** Request by request: a download that succeeds sends the bytes of its blocks, another one nothing. */
  lemma ArrivedIs<B>(remote: seq<seq<B>>, r: Interval, rest: seq<Interval>, arrives: int -> bool)
    requires InRange(r, |remote|) && AllInRange(rest, |remote|)
    ensures Arrived<B>(remote, [], arrives) == []
    ensures AllInRange([r] + rest, |remote|)
    ensures Arrived(remote, [r] + rest, arrives)
         == (if arrives(r.first) then [Flatten(remote[r.first - 1..r.last])] else []) + Arrived(remote, rest, arrives)
  {
    assert ([r] + rest)[1..] == rest;
  }

  ghost predicate AllArrive(arrives: int -> bool) {
    forall block: int :: arrives(block)
  }

  ghost function Block<B>(remote: seq<seq<B>>, n: int): seq<B> {
    if 1 <= n <= |remote| then remote[n - 1] else []
  }

  /** The blocks with the given numbers. */
  ghost function Pick<B>(remote: seq<seq<B>>, numbers: seq<int>): seq<seq<B>> {
    seq(|numbers|, k requires 0 <= k < |numbers| => Block(remote, numbers[k]))
  }

  lemma PickConcat<B>(remote: seq<seq<B>>, a: seq<int>, b: seq<int>)
    ensures Pick(remote, a + b) == Pick(remote, a) + Pick(remote, b)
  {
  }

  lemma PickInterval<B>(remote: seq<seq<B>>, r: Interval)
    requires InRange(r, |remote|)
    ensures Pick(remote, BlockNumbers(r.first, r.last)) == remote[r.first - 1..r.last]
  {
  }

  /** If every download succeeds, the bytes sent are those of the blocks asked for. */
  lemma {:induction false} AskedBlocksArrive<B>(remote: seq<seq<B>>, requests: seq<Interval>, arrives: int -> bool)
    requires AllInRange(requests, |remote|) && AllArrive(arrives)
    ensures Flatten(Arrived(remote, requests, arrives)) == Flatten(Pick(remote, Asked(requests)))
  {
    if requests != [] {
      var r, rest := requests[0], requests[1..];
      AskedBlocksArrive(remote, rest, arrives);
      FlattenHead(Download(remote, r), Arrived(remote, rest, arrives));
      PickInterval(remote, r);
      PickConcat(remote, BlockNumbers(r.first, r.last), Asked(rest));
      FlattenConcat(remote[r.first - 1..r.last], Pick(remote, Asked(rest)));
    }
  }

  /** A download that never fails brings the blocks in order, up to where it is stopped. */
  lemma BlocksArriveInOrder<B>(remote: seq<seq<B>>, step: nat, cancelled: int -> bool, arrives: int -> bool)
    requires step >= 1 && AllArrive(arrives)
    ensures Flatten(Arrived(remote, Requests(1, step, |remote|, cancelled), arrives)) <= Flatten(remote)
    ensures NeverCancelled(cancelled) ==>
              Flatten(Arrived(remote, Requests(1, step, |remote|, cancelled), arrives)) == Flatten(remote)
  {
    var requests := Requests(1, step, |remote|, cancelled);
    RequestsTile(1, step, |remote|, cancelled);
    AskedBlocksArrive(remote, requests, arrives);
    PickPrefix(remote, Asked(requests));
  }

  lemma PickPrefix<B>(remote: seq<seq<B>>, numbers: seq<int>)
    requires numbers <= BlockNumbers(1, |remote|)
    ensures Flatten(Pick(remote, numbers)) <= Flatten(remote)
    ensures |numbers| == |remote| ==> Flatten(Pick(remote, numbers)) == Flatten(remote)
  {
    var n := |numbers|;
    assert Pick(remote, numbers) == remote[..n];
    assert remote[..n] + remote[n..] == remote;
    FlattenConcat(remote[..n], remote[n..]);
    assert n == |remote| ==> remote[..n] == remote;
  }

  /** Whether the download from `start` on is cut short by Stop. */
  predicate Stopped(start: int, step: nat, last: nat, cancelled: int -> bool)
    requires step >= 1
    decreases last - start
  {
    start <= last && (cancelled(start) || Stopped(start + step, step, last, cancelled))
  }

  lemma {:induction false} StoppedIff(start: int, step: nat, last: nat, cancelled: int -> bool)
    requires step >= 1
    ensures Stopped(start, step, last, cancelled)
       <==> exists k: nat :: StopsAt(start, step, last, cancelled, k)
    decreases last - start
  {
    var next := start + step;
    if start <= last {
      StoppedIff(next, step, last, cancelled);
      if k: nat :| StopsAt(start, step, last, cancelled, k) {
        if k > 0 {
          assert next + (k - 1) * step == start + k * step;
          assert StopsAt(next, step, last, cancelled, k - 1);
        }
      }
      if cancelled(start) {
        assert StopsAt(start, step, last, cancelled, 0);
      }
      if k: nat :| StopsAt(next, step, last, cancelled, k) {
        assert next + k * step == start + (k + 1) * step;
        assert StopsAt(start, step, last, cancelled, k + 1);
      }
    }
  }

  /** The context is done when the k-th request would be made. */
  ghost predicate StopsAt(start: int, step: nat, last: nat, cancelled: int -> bool, k: nat) {
    start + k * step <= last && cancelled(start + k * step)
  }

  /** What a download that goes on at `start` puts into the channel; only one that is not stopped ends
      with the empty chunk that closes the stream. */
  function Incoming<B>(remote: seq<seq<B>>, start: int, step: nat, cancelled: int -> bool,
                        arrives: int -> bool): seq<seq<B>>
    requires step >= 1 && start >= 1
  {
    Arrived(remote, Requests(start, step, |remote|, cancelled), arrives)
    + if Stopped(start, step, |remote|, cancelled) then [] else [[]]
  }

  /** The closing chunk comes if and only if the context is never done when a request would be made. */
  lemma IncomingIs<B>(
    remote: seq<seq<B>>, start: int, step: nat, cancelled: int -> bool, arrives: int -> bool)
    requires step >= 1 && start >= 1
    ensures Incoming(remote, start, step, cancelled, arrives)
         == Arrived(remote, Requests(start, step, |remote|, cancelled), arrives)
            + if exists k: nat :: StopsAt(start, step, |remote|, cancelled, k) then [] else [[]]
  {
    StoppedIff(start, step, |remote|, cancelled);
  }

  /** One turn of the download loop. */
  lemma DownloadTurn<B>(
    remote: seq<seq<B>>, start: int, step: nat, cancelled: int -> bool, arrives: int -> bool,
    requests: seq<Interval>, sent: seq<seq<B>>)
    requires step >= 1 && 1 <= start <= |remote| && !cancelled(start)
    ensures var i := Interval(start, Min(start + step - 1, |remote|));
            && requests + Requests(start, step, |remote|, cancelled)
               == requests + [i] + Requests(start + step, step, |remote|, cancelled)
            && sent + Incoming(remote, start, step, cancelled, arrives)
               == sent + (if arrives(start) then [Download(remote, i)] else [])
                  + Incoming(remote, start + step, step, cancelled, arrives)
  {
    assert Requests(start, step, |remote|, cancelled)[1..] == Requests(start + step, step, |remote|, cancelled);
  }

  /** Where the download ends: stopped, or behind the last block. */
  lemma DownloadOver<B>(
    remote: seq<seq<B>>, start: int, step: nat, cancelled: int -> bool, arrives: int -> bool)
    requires step >= 1 && start >= 1 && (start > |remote| || cancelled(start))
    ensures Requests(start, step, |remote|, cancelled) == []
    ensures Incoming(remote, start, step, cancelled, arrives) == if start > |remote| then [[]] else []
  {
  }

  // ----- the player -----

  class FilePlayer<B> {
    /** createFilePalyer sets 10. */
    const numBlocks: nat
    /** The playlist's NumBlocks and ActualFileSize. */
    const playlistBlocks: int
    const actualFileSize: nat
    const remote: seq<seq<B>>
    var downloadedChunks: seq<seq<B>>
    var downloadedLen: int
    /** Everything asked for, sent into the channel, taken from it and handed to the caller. */
    ghost var requests: seq<Interval>
    ghost var sent: seq<seq<B>>
    ghost var taken: seq<seq<B>>
    ghost var played: seq<B>

    ghost predicate Valid()
      reads this
    {
      && numBlocks >= 1
      && |remote| == (if playlistBlocks < 1 then 0 else playlistBlocks)
      && AllInRange(requests, |remote|)
      && sent == taken + downloadedChunks
      && played == Take(Flatten(taken), actualFileSize)
      && downloadedLen == |played|
    }

    constructor (numBlocks: nat, playlistBlocks: int, actualFileSize: nat, remote: seq<seq<B>>)
      requires numBlocks >= 1 && |remote| == if playlistBlocks < 1 then 0 else playlistBlocks
      ensures Valid() && requests == [] && sent == [] && taken == [] && played == []
      ensures this.numBlocks == numBlocks && this.playlistBlocks == playlistBlocks
      ensures this.actualFileSize == actualFileSize && this.remote == remote
    {
      this.numBlocks, this.playlistBlocks, this.actualFileSize := numBlocks, playlistBlocks, actualFileSize;
      this.remote := remote;
      downloadedChunks, downloadedLen := [], 0;
      requests, sent, taken, played := [], [], [], [];
    }

    method Send(c: seq<B>)
      requires sent == taken + downloadedChunks
      modifies this`downloadedChunks, this`sent
      ensures sent == taken + downloadedChunks && sent == old(sent) + [c]
    {
      downloadedChunks, sent := downloadedChunks + [c], sent + [c];
    }

    /** One request; a failed one sends nothing. */
    method DownloadFrom(startBlock: int, arrives: bool)
      requires Valid() && 1 <= startBlock <= playlistBlocks
      modifies this`requests, this`downloadedChunks, this`sent
      ensures Valid()
      ensures requests == old(requests) + [Interval(startBlock, Min(startBlock + numBlocks - 1, playlistBlocks))]
      ensures sent == old(sent) + if arrives then [Download(remote, requests[|requests| - 1])] else []
    {
      var endBlock := startBlock + numBlocks - 1;
      if endBlock > playlistBlocks {
        endBlock := playlistBlocks;
      }
      requests := requests + [Interval(startBlock, endBlock)];
      if arrives {
        Send(Download(remote, Interval(startBlock, endBlock)));
      }
    }

    /** The requests tile the playlist's blocks until the player is stopped; only a download that was not
        stopped ends with the empty chunk that closes the stream. Without a block, nothing is sent. */
    method StartDownload(cancelled: int -> bool, arrives: int -> bool)
      requires Valid()
      modifies this`requests, this`downloadedChunks, this`sent
      ensures Valid()
      ensures playlistBlocks < 1 ==> requests == old(requests) && sent == old(sent)
      ensures playlistBlocks >= 1 ==>
        && requests == old(requests) + Requests(1, numBlocks, playlistBlocks, cancelled)
        && sent == old(sent) + Incoming(remote, 1, numBlocks, cancelled, arrives)
    {
      if playlistBlocks < 1 {
        return;
      }
      ghost var asked := requests + Requests(1, numBlocks, playlistBlocks, cancelled);
      ghost var chunks := sent + Incoming(remote, 1, numBlocks, cancelled, arrives);
      var startBlock: int := 1;
      while true
        invariant Valid() && 1 <= startBlock <= playlistBlocks == |remote|
        invariant requests + Requests(startBlock, numBlocks, playlistBlocks, cancelled) == asked
        invariant sent + Incoming(remote, startBlock, numBlocks, cancelled, arrives) == chunks
        decreases playlistBlocks - startBlock
      {
        if cancelled(startBlock) {
          DownloadOver(remote, startBlock, numBlocks, cancelled, arrives);
          return;
        }
        DownloadTurn(remote, startBlock, numBlocks, cancelled, arrives, requests, sent);
        DownloadFrom(startBlock, arrives(startBlock));
        startBlock := startBlock + numBlocks;
        if startBlock > playlistBlocks {
          DownloadOver(remote, startBlock, numBlocks, cancelled, arrives);
          Send([]);
          return;
        }
      }
    }

    /** Takes the next chunk, cut where the file ends; on an empty channel the call waits. */
    method GetNext() returns (b: seq<B>)
      requires Valid() && downloadedChunks != []
      modifies this`downloadedChunks, this`downloadedLen, this`taken, this`played
      ensures Valid()
      ensures downloadedChunks == old(downloadedChunks)[1..] && taken == old(taken) + [old(downloadedChunks)[0]]
      ensures played == old(played) + b
      ensures b == Take(old(downloadedChunks)[0], actualFileSize - old(downloadedLen))
    {
      b := downloadedChunks[0];
      FlattenAppend(taken, b);
      TakeAppend(Flatten(taken), b, actualFileSize);
      taken, downloadedChunks := taken + [b], downloadedChunks[1..];
      if downloadedLen + |b| > actualFileSize {
        b := b[..actualFileSize - downloadedLen];
      }
      downloadedLen := downloadedLen + |b|;
      played := played + b;
    }
  }

  lemma TakeAppend<B>(s: seq<B>, c: seq<B>, n: nat)
    ensures |Take(s, n)| <= n
    ensures Take(s + c, n) == Take(s, n) + Take(c, n - |Take(s, n)|)
  {
  }

  /** The decoded blocks hold the file, padded after its end. */
  ghost predicate Holds<B>(remote: seq<seq<B>>, file: seq<B>, dataShards: nat)
    requires dataShards >= 1
  {
    && |remote| == TotalBlocks(|file|, dataShards)
    && (forall i :: 0 <= i < |remote| ==> |remote[i]| == BlockSize(dataShards))
    && (forall k :: 0 <= k < |file| && k < |Flatten(remote)| ==> Flatten(remote)[k] == file[k])
  }

  /** A player whose downloads do not fail plays the file: at any moment, stopped or not, what it has
      played is an initial part of the file, and it is the whole file, without padding, once a download
      that was not stopped has been read to its end. */
  lemma FileIsPlayed<B>(p: FilePlayer<B>, file: seq<B>, dataShards: nat, cancelled: int -> bool, arrives: int -> bool)
    requires p.Valid() && p.actualFileSize == |file|
    requires dataShards >= 1 && Holds(p.remote, file, dataShards)
    requires AllArrive(arrives) && p.sent == Incoming(p.remote, 1, p.numBlocks, cancelled, arrives)
    ensures p.played <= file
    ensures NeverCancelled(cancelled) && p.downloadedChunks == [] ==> p.played == file
  {
    var remote := p.remote;
    var chunks := Arrived(remote, Requests(1, p.numBlocks, |remote|, cancelled), arrives);
    BlocksArriveInOrder(remote, p.numBlocks, cancelled, arrives);
    FlattenConcat(chunks, [[]]);
    FlattenOne<B>([]);
    assert chunks + [] == chunks;
    assert Flatten(p.sent) == Flatten(chunks) <= Flatten(remote);
    FlattenConcat(p.taken, p.downloadedChunks);
    FileIsPrefix(remote, file, dataShards);
    PrefixIsPlayed(Flatten(p.taken), Flatten(remote), file);
    if NeverCancelled(cancelled) && p.downloadedChunks == [] {
      assert Flatten(p.taken) == Flatten(remote);
    }
  }

  lemma FileIsPrefix<B>(remote: seq<seq<B>>, file: seq<B>, dataShards: nat)
    requires dataShards >= 1 && Holds(remote, file, dataShards)
    ensures file <= Flatten(remote)
  {
    LeastBlocks(|file|, dataShards, |remote|);
    FlattenEqualSizes(remote, BlockSize(dataShards), |remote|);
  }

  lemma PrefixIsPlayed<B>(taken: seq<B>, all: seq<B>, file: seq<B>)
    requires taken <= all && file <= all
    ensures Take(taken, |file|) <= file
    ensures taken == all ==> Take(taken, |file|) == file
  {
  }
}
