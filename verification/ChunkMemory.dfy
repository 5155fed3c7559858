/** What becomes of the bytes written to a MemChanFile (core/sys/util.go:177-209): Sync sends views into the
    array behind the pending bytes, and the next Write appends over the same cells, whether or not the
    views have been read. A run is any sequence of writes, syncs and reads. */
module ChunkMemory {
  import opened Support
  import opened Streams
  import opened Chunking

  /** The cells start..end of array `id`. */
  datatype View = View(id: nat, start: nat, end: nat)

  /** `spare` is what a new array holds behind the bytes written, should Write need one; `room` is the
      length of the reader's buffer. */
  datatype Op<B> = Write(p: seq<B>, spare: seq<B>) | Sync | Read(room: nat)

  /** `mem` are all arrays ever used; the pending bytes are the first `len` cells of array `cur`. What was
      written, what every chunk held when it was sent and when it was taken out of the channel, and the
      bytes handed to the reader are kept beside. */
  datatype State<B> = State(
    mem: seq<seq<B>>,
    cur: nat,
    len: nat,
    queue: seq<View>,
    written: seq<B>,
    sent: seq<seq<B>>,
    taken: seq<seq<B>>,
    delivered: seq<B>,
    dropped: nat)

  predicate InMemory<B>(mem: seq<seq<B>>, v: View) {
    v.id < |mem| && v.start <= v.end <= |mem[v.id]|
  }

  predicate Sound<B>(size: nat, s: State<B>) {
    && s.cur < |s.mem| && s.len <= |s.mem[s.cur]| && (size == 0 ==> s.len == 0)
    && forall i :: 0 <= i < |s.queue| ==> InMemory(s.mem, s.queue[i])
  }

  /** What a view shows now. */
  function At<B>(mem: seq<seq<B>>, v: View): seq<B> {
    if InMemory(mem, v) then mem[v.id][v.start..v.end] else []
  }

  function Data<B>(s: State<B>): seq<B>
    requires s.cur < |s.mem| && s.len <= |s.mem[s.cur]|
  {
    s.mem[s.cur][..s.len]
  }

  function Init<B>(): State<B> {
    State([[]], 0, 0, [], [], [], [], [], 0)
  }

  /** The views Sync sends. */
  function Views(id: nat, from: nat, len: nat, size: nat): seq<View>
    requires from < len ==> size >= 1
    decreases len - from
  {
    if from >= len then []
    else [View(id, from, Min(from + size, len))] + Views(id, from + size, len, size)
  }

  /** Whether append finds room behind the pending bytes. */
  predicate Fits<B>(s: State<B>, n: nat)
    requires s.cur < |s.mem|
  {
    s.len + n <= |s.mem[s.cur]|
  }

  function WriteTo<B>(size: nat, s: State<B>, p: seq<B>, spare: seq<B>): State<B>
    requires Sound(size, s)
  {
    if size == 0 then
      s.(mem := s.mem + [p], queue := s.queue + [View(|s.mem|, 0, |p|)], sent := s.sent + [p], written := s.written + p)
    else if Fits(s, |p|) then
      var cells := s.mem[s.cur];
      s.(mem := s.mem[s.cur := cells[..s.len] + p + cells[s.len + |p|..]], len := s.len + |p|, written := s.written + p)
    else
      s.(mem := s.mem + [Data(s) + p + spare], cur := |s.mem|, len := s.len + |p|, written := s.written + p)
  }

  /** What a Write leaves behind: without a chunk size an array of its own, sent whole; with one, the bytes
      follow the pending ones, in the same cells when there is room for them behind these, and in a new
      array, with the pending ones copied, when there is not. Nothing else changes. */
  lemma WriteLaw<B>(size: nat, s: State<B>, p: seq<B>, spare: seq<B>)
    requires Sound(size, s)
    ensures var s' := WriteTo(size, s, p, spare);
            && s'.written == s.written + p && s'.taken == s.taken
            && s'.delivered == s.delivered && s'.dropped == s.dropped
            && (size == 0 ==>
                  && s'.mem == s.mem + [p] && s'.cur == s.cur && s'.len == 0
                  && s'.sent == s.sent + [p] && s'.queue == s.queue + [View(|s.mem|, 0, |p|)])
            && (size > 0 ==>
                  && s'.len == s.len + |p| && s'.queue == s.queue && s'.sent == s.sent
                  && s'.mem[s'.cur][..s'.len] == s.mem[s.cur][..s.len] + p)
            && (size > 0 && s.len + |p| <= |s.mem[s.cur]| ==>
                  && s'.cur == s.cur && |s'.mem| == |s.mem|
                  && (forall i :: 0 <= i < |s.mem| && i != s.cur ==> s'.mem[i] == s.mem[i])
                  && |s'.mem[s.cur]| == |s.mem[s.cur]|
                  && s'.mem[s.cur][s'.len..] == s.mem[s.cur][s'.len..])
            && (size > 0 && s.len + |p| > |s.mem[s.cur]| ==>
                  && s'.cur == |s.mem| && |s'.mem| == |s.mem| + 1 && s'.mem[..|s.mem|] == s.mem
                  && s'.mem[s'.cur][s'.len..] == spare)
  {
  }

  function SyncAll<B>(size: nat, s: State<B>): State<B>
    requires Sound(size, s)
  {
    s.(queue := s.queue + Views(s.cur, 0, s.len, size), sent := s.sent + Chunks(Data(s), size), len := 0)
  }

  function ReadOne<B>(s: State<B>, room: nat): State<B> {
    if s.queue == [] then s
    else
      var c := At(s.mem, s.queue[0]);
      var t := s.(queue := s.queue[1..], taken := s.taken + [c]);
      if |c| > room then t.(dropped := s.dropped + 1) else t.(delivered := s.delivered + c)
  }

  function Step<B>(size: nat, s: State<B>, op: Op<B>): (s': State<B>)
    requires Sound(size, s)
    ensures Sound(size, s')
  {
    match op
    case Write(p, spare) => WriteTo(size, s, p, spare)
    case Sync => ViewsInMemory(s.mem, s.cur, 0, s.len, size); SyncAll(size, s)
    case Read(room) => ReadOne(s, room)
  }

  lemma {:induction false} ViewsInMemory<B>(mem: seq<seq<B>>, cur: nat, from: nat, len: nat, size: nat)
    requires cur < |mem| && len <= |mem[cur]| && (from < len ==> size >= 1)
    ensures forall i :: 0 <= i < |Views(cur, from, len, size)| ==> InMemory(mem, Views(cur, from, len, size)[i])
    decreases len - from
  {
    if from < len {
      ViewsInMemory(mem, cur, from + size, len, size);
    }
  }

  function Run<B>(size: nat, ops: seq<Op<B>>): (s: State<B>)
    ensures Sound(size, s)
  {
    if ops == [] then Init() else Step(size, Run(size, ops[..|ops| - 1]), ops[|ops| - 1])
  }

  // ----- what the chunks hold -----

  function Queued<B>(mem: seq<seq<B>>, queue: seq<View>): seq<seq<B>> {
    seq(|queue|, i requires 0 <= i < |queue| => At(mem, queue[i]))
  }

  lemma QueuedConcat<B>(mem: seq<seq<B>>, a: seq<View>, b: seq<View>)
    ensures Queued(mem, a + b) == Queued(mem, a) + Queued(mem, b)
  {
  }

  lemma QueuedHead<B>(mem: seq<seq<B>>, queue: seq<View>)
    requires queue != []
    ensures Queued(mem, queue) == [At(mem, queue[0])] + Queued(mem, queue[1..])
  {
  }

  /** Every chunk sent: as it was taken out of the channel, or as it lies in it now. */
  function Held<B>(s: State<B>): (chunks: seq<seq<B>>)
    ensures |chunks| == |s.taken| + |s.queue|
    ensures forall c :: 0 <= c < |s.taken| ==> chunks[c] == s.taken[c]
    ensures forall c :: |s.taken| <= c < |chunks| ==> chunks[c] == At(s.mem, s.queue[c - |s.taken|])
  {
    s.taken + Queued(s.mem, s.queue)
  }

  predicate Hits(v: View, id: nat, from: nat, to: nat) {
    v.id == id && v.start < v.end && v.start < to && from < v.end
  }

  /** The operation is a Write into cells of the c-th chunk, which nobody has read yet. */
  predicate Overwrites<B>(size: nat, s: State<B>, op: Op<B>, c: nat)
    requires Sound(size, s)
  {
    && size > 0 && op.Write? && op.p != [] && Fits(s, |op.p|)
    && |s.taken| <= c < |s.taken| + |s.queue|
    && Hits(s.queue[c - |s.taken|], s.cur, s.len, s.len + |op.p|)
  }

  /** A Write leaves the length of every chunk, and the chunks it does not overwrite. */
  lemma WriteKeeps<B>(size: nat, s: State<B>, p: seq<B>, spare: seq<B>, c: nat)
    requires Sound(size, s) && c < |Held(s)|
    ensures var s' := WriteTo(size, s, p, spare);
            && |Held(s')| == |Held(s)| + (if size == 0 then 1 else 0)
            && |Held(s')[c]| == |Held(s)[c]|
            && (!Overwrites(size, s, Write(p, spare), c) ==> Held(s')[c] == Held(s)[c])
  {
    var s' := WriteTo(size, s, p, spare);
    if c >= |s.taken| {
      var v := s.queue[c - |s.taken|];
      assert s'.queue[c - |s.taken|] == v && InMemory(s.mem, v);
      if size > 0 && Fits(s, |p|) && v.id == s.cur && !Overwrites(size, s, Write(p, spare), c) {
        OtherCells(s.mem[s.cur], s.len, p, v.start, v.end);
      }
    }
  }

  lemma OtherCells<B>(cells: seq<B>, at: nat, p: seq<B>, start: nat, end: nat)
    requires at + |p| <= |cells| && start <= end <= |cells|
    requires p == [] || start == end || start >= at + |p| || end <= at
    ensures (cells[..at] + p + cells[at + |p|..])[start..end] == cells[start..end]
  {
    var cells' := cells[..at] + p + cells[at + |p|..];
    assert forall k :: 0 <= k < |cells| && !(at <= k < at + |p|) ==> cells'[k] == cells[k];
  }

  lemma {:induction false} ViewsAreChunks<B>(mem: seq<seq<B>>, cur: nat, from: nat, len: nat, size: nat)
    requires cur < |mem| && len <= |mem[cur]| && (from < len ==> size >= 1)
    ensures Queued(mem, Views(cur, from, len, size)) == Chunks(mem[cur][Min(from, len)..len], size)
    decreases len - from
  {
    if from < len {
      var views := Views(cur, from, len, size);
      assert views[1..] == Views(cur, from + size, len, size);
      ViewsAreChunks(mem, cur, from + size, len, size);
      FirstChunk(mem[cur], from, len, size);
      QueuedHead(mem, views);
    }
  }

  lemma FirstChunk<B>(cells: seq<B>, from: nat, len: nat, size: nat)
    requires from < len <= |cells| && size >= 1
    ensures Chunks(cells[from..len], size)
         == [cells[from..Min(from + size, len)]] + Chunks(cells[Min(from + size, len)..len], size)
  {
    var data := cells[from..len];
    if |data| > size {
      assert data[size..] == cells[from + size..len] && data[..size] == cells[from..from + size];
    } else {
      assert cells[len..len] == [];
    }
  }

  lemma SyncHolds<B>(size: nat, s: State<B>)
    requires Sound(size, s)
    ensures Held(SyncAll(size, s)) == Held(s) + Chunks(Data(s), size)
  {
    var s' := SyncAll(size, s);
    var views := Views(s.cur, 0, s.len, size);
    ViewsAreChunks(s.mem, s.cur, 0, s.len, size);
    QueuedConcat(s.mem, s.queue, views);
  }

  lemma ReadHolds<B>(s: State<B>, room: nat)
    ensures Held(ReadOne(s, room)) == Held(s)
  {
    if s.queue != [] {
      QueuedHead(s.mem, s.queue);
    }
  }

  // ----- conservation as sent -----

  /** The chunks as they were sent, followed by the pending bytes, are everything written; chunks keep
      their lengths; and the reader has got all the chunks taken unless one did not fit. */
  ghost predicate Account<B>(size: nat, s: State<B>)
    requires Sound(size, s)
  {
    && Flatten(s.sent) + Data(s) == s.written
    && SameLengths(s.sent, Held(s))
    && Received(s)
  }

  ghost predicate SameLengths<B>(a: seq<seq<B>>, b: seq<seq<B>>) {
    |a| == |b| && forall c :: 0 <= c < |a| ==> |a[c]| == |b[c]|
  }

  ghost predicate Received<B>(s: State<B>) {
    && (s.dropped == 0 ==> s.delivered == Flatten(s.taken))
    && (s.dropped > 0 ==> |s.delivered| < |Flatten(s.taken)|)
  }

  lemma WriteAccounts<B>(size: nat, s: State<B>, p: seq<B>, spare: seq<B>)
    requires Sound(size, s) && Account(size, s)
    ensures Account(size, Step(size, s, Write(p, spare)))
  {
    WriteKeepsLengths(size, s, p, spare);
    if size == 0 {
      FlattenAppend(s.sent, p);
    } else {
      WriteAppends(size, s, p, spare);
    }
  }

  lemma WriteKeepsLengths<B>(size: nat, s: State<B>, p: seq<B>, spare: seq<B>)
    requires Sound(size, s) && SameLengths(s.sent, Held(s))
    ensures SameLengths(WriteTo(size, s, p, spare).sent, Held(WriteTo(size, s, p, spare)))
  {
    var s' := WriteTo(size, s, p, spare);
    HeldGrows(size, s, p, spare);
    forall c | 0 <= c < |Held(s)| ensures |Held(s')[c]| == |Held(s)[c]| {
      WriteKeeps(size, s, p, spare, c);
    }
  }

  lemma WriteAppends<B>(size: nat, s: State<B>, p: seq<B>, spare: seq<B>)
    requires Sound(size, s) && size > 0
    ensures Sound(size, WriteTo(size, s, p, spare)) && Data(WriteTo(size, s, p, spare)) == Data(s) + p
    ensures Flatten(s.sent) + (Data(s) + p) == Flatten(s.sent) + Data(s) + p
  {
  }

  lemma SyncAccounts<B>(size: nat, s: State<B>)
    requires Sound(size, s) && Account(size, s)
    ensures Account(size, Step(size, s, Sync))
  {
    SyncHolds(size, s);
    ChunksConserve(Data(s), size);
    FlattenConcat(s.sent, Chunks(Data(s), size));
  }

  lemma ReadAccounts<B>(size: nat, s: State<B>, room: nat)
    requires Sound(size, s) && Account(size, s)
    ensures Account(size, Step(size, s, Read(room)))
  {
    ReadHolds(s, room);
    if s.queue != [] {
      FlattenAppend(s.taken, At(s.mem, s.queue[0]));
    }
  }

  /** In every run the chunks as sent, followed by the pending bytes, are everything written. */
  lemma {:induction false} RunAccounts<B>(size: nat, ops: seq<Op<B>>)
    ensures Account(size, Run(size, ops))
  {
    if ops == [] {
      var s := Run(size, ops);
      assert s == Init();
      assert Data(s) == [];
    } else {
      var m := |ops| - 1;
      RunAccounts(size, ops[..m]);
      match ops[m] {
        case Write(p, spare) => WriteAccounts(size, Run(size, ops[..m]), p, spare);
        case Sync => SyncAccounts(size, Run(size, ops[..m]));
        case Read(room) => ReadAccounts(size, Run(size, ops[..m]), room);
      }
    }
  }

  // ----- what is read back -----

  /** What was read, what lies in the channel and what is pending are, in order, everything written. */
  ghost predicate Intact<B>(size: nat, s: State<B>)
    requires Sound(size, s)
  {
    s.delivered + Flatten(Queued(s.mem, s.queue)) + Data(s) == s.written
  }

  lemma IntactIff<B>(size: nat, s: State<B>)
    requires Sound(size, s) && Account(size, s)
    ensures Intact(size, s) <==> s.dropped == 0 && Held(s) == s.sent
  {
    var queued := Queued(s.mem, s.queue);
    FlattenConcat(s.taken, queued);
    FlattenSizes(s.sent, Held(s), |s.sent|);
    Cancel(s.delivered + Flatten(queued), Flatten(s.sent), Data(s));
    if s.dropped == 0 && Flatten(Held(s)) == Flatten(s.sent) {
      SameCuts(s.sent, Held(s), |s.sent|);
    }
  }

  lemma Cancel<B>(a: seq<B>, b: seq<B>, c: seq<B>)
    ensures a + c == b + c <==> a == b
  {
    if a + c == b + c {
      assert |a| == |b|;
      assert a == (a + c)[..|a|] && b == (b + c)[..|b|];
    }
  }

  /** Some Write of the run overwrote the c-th chunk before it was read. */
  ghost predicate Overwritten<B>(size: nat, ops: seq<Op<B>>, c: nat) {
    ops != [] &&
      var m := |ops| - 1;
      Overwritten(size, ops[..m], c) || Overwrites(size, Run(size, ops[..m]), ops[m], c)
  }

  ghost predicate NoneOverwritten<B>(size: nat, ops: seq<Op<B>>) {
    forall c :: !Overwritten(size, ops, c)
  }

  lemma {:induction false} ChunksStay<B>(size: nat, ops: seq<Op<B>>)
    requires NoneOverwritten(size, ops)
    ensures Held(Run(size, ops)) == Run(size, ops).sent
  {
    if ops != [] {
      var m := |ops| - 1;
      var s := Run(size, ops[..m]);
      forall c ensures !Overwritten(size, ops[..m], c) && !Overwrites(size, s, ops[m], c) {
        assert !Overwritten(size, ops, c);
      }
      ChunksStay(size, ops[..m]);
      StepStays(size, s, ops[m]);
    }
  }

  lemma StepStays<B>(size: nat, s: State<B>, op: Op<B>)
    requires Sound(size, s) && Held(s) == s.sent
    requires forall c :: !Overwrites(size, s, op, c)
    ensures Held(Step(size, s, op)) == Step(size, s, op).sent
  {
    match op {
      case Write(p, spare) =>
        var s' := WriteTo(size, s, p, spare);
        forall c | 0 <= c < |Held(s)| ensures Held(s')[c] == Held(s)[c] {
          WriteKeeps(size, s, p, spare, c);
        }
        HeldGrows(size, s, p, spare);
        assert Held(s') == s'.sent;
      case Sync => SyncHolds(size, s);
      case Read(room) => ReadHolds(s, room);
    }
  }

  lemma HeldGrows<B>(size: nat, s: State<B>, p: seq<B>, spare: seq<B>)
    requires Sound(size, s)
    ensures var s' := WriteTo(size, s, p, spare);
            && |Held(s')| == |Held(s)| + (if size == 0 then 1 else 0)
            && (size == 0 ==> Held(s')[|Held(s)|] == p)
  {
    var s' := WriteTo(size, s, p, spare);
    assert forall i :: 0 <= i < |s.queue| ==> s'.queue[i] == s.queue[i];
    if size == 0 {
      assert s'.queue[|s.queue|] == View(|s.mem|, 0, |p|) && At(s'.mem, s'.queue[|s.queue|]) == p;
    }
  }

  // ----- runs of one shape -----

  predicate SameKind<B, C>(a: Op<B>, b: Op<C>) {
    match a
    case Write(p, spare) => b.Write? && |b.p| == |p| && |b.spare| == |spare|
    case Sync => b.Sync?
    case Read(room) => b.Read? && b.room == room
  }

  /** The same operations, perhaps with other bytes. */
  predicate SameShape<B, C>(a: seq<Op<B>>, b: seq<Op<C>>) {
    |a| == |b| && forall i :: 0 <= i < |a| ==> SameKind(a[i], b[i])
  }

  /** The two states differ only in what the cells hold. */
  ghost predicate SameLayout<B, C>(s: State<B>, t: State<C>) {
    && |s.mem| == |t.mem| && (forall i :: 0 <= i < |s.mem| ==> |s.mem[i]| == |t.mem[i]|)
    && s.cur == t.cur && s.len == t.len && s.queue == t.queue
    && |s.sent| == |t.sent| && |s.taken| == |t.taken| && s.dropped == t.dropped
  }

  lemma {:induction false} SameChunkCount<B, C>(a: seq<B>, b: seq<C>, size: nat)
    requires |a| == |b| && (a != [] ==> size >= 1)
    ensures |Chunks(a, size)| == |Chunks(b, size)|
    decreases |a|
  {
    if |a| > size {
      SameChunkCount(a[size..], b[size..], size);
    }
  }

  lemma LayoutStep<B, C>(size: nat, s: State<B>, t: State<C>, a: Op<B>, b: Op<C>, c: nat)
    requires Sound(size, s) && Sound(size, t) && SameLayout(s, t) && SameKind(a, b)
    ensures SameLayout(Step(size, s, a), Step(size, t, b))
    ensures Overwrites(size, s, a, c) <==> Overwrites(size, t, b, c)
  {
    match a {
      case Write(p, spare) => LayoutWrite(size, s, t, p, spare, b.p, b.spare);
      case Sync => SameChunkCount(Data(s), Data(t), size);
      case Read(_) => SameViewLengths(s, t);
    }
  }

  lemma LayoutWrite<B, C>(size: nat, s: State<B>, t: State<C>, p: seq<B>, pSpare: seq<B>, q: seq<C>, qSpare: seq<C>)
    requires Sound(size, s) && Sound(size, t) && SameLayout(s, t) && |p| == |q| && |pSpare| == |qSpare|
    ensures SameLayout(WriteTo(size, s, p, pSpare), WriteTo(size, t, q, qSpare))
  {
  }

  lemma SameViewLengths<B, C>(s: State<B>, t: State<C>)
    requires SameLayout(s, t)
    ensures forall v :: |At(s.mem, v)| == |At(t.mem, v)|
  {
  }

  lemma {:induction false} SameShapeSameLayout<B, C>(size: nat, a: seq<Op<B>>, b: seq<Op<C>>, c: nat)
    requires SameShape(a, b)
    ensures SameLayout(Run(size, a), Run(size, b))
    ensures Overwritten(size, a, c) <==> Overwritten(size, b, c)
  {
    if a != [] {
      var m := |a| - 1;
      SameShapeSameLayout(size, a[..m], b[..m], c);
      LayoutStep(size, Run(size, a[..m]), Run(size, b[..m]), a[m], b[m], c);
    }
  }

  // ----- bytes that betray an overwritten chunk -----

  ghost predicate AllAre<B>(bytes: seq<B>, x: B) {
    forall k :: 0 <= k < |bytes| ==> bytes[k] == x
  }

  function Paint<B>(op: Op<B>, x: B): Op<B> {
    match op
    case Write(p, spare) => Write(seq(|p|, _ => x), spare)
    case Sync => op
    case Read(_) => op
  }

  /** The run with x written until the c-th chunk has been sent, and y from then on. */
  function Painted<B>(size: nat, ops: seq<Op<B>>, c: nat, x: B, y: B): (painted: seq<Op<B>>)
    ensures SameShape(ops, painted)
  {
    if ops == [] then []
    else
      var m := |ops| - 1;
      var before := Painted(size, ops[..m], c, x, y);
      before + [Paint(ops[m], if |Run(size, before).sent| <= c then x else y)]
  }

  /** While the c-th chunk has not been sent everything pending is x; then it was sent holding x alone,
      and once overwritten it holds a y. */
  ghost predicate Betrayed<B>(size: nat, s: State<B>, c: nat, x: B, y: B, overwritten: bool)
    requires Sound(size, s)
  {
    && |Held(s)| == |s.sent|
    && (|s.sent| <= c ==> AllAre(Data(s), x) && !overwritten)
    && (|s.sent| > c ==> AllAre(s.sent[c], x))
    && (overwritten ==> c < |s.sent| && y in Held(s)[c])
  }

  lemma {:induction false} ChunksAre<B>(data: seq<B>, size: nat, x: B, k: nat)
    requires (data != [] ==> size >= 1) && AllAre(data, x)
    requires k < |Chunks(data, size)|
    ensures AllAre(Chunks(data, size)[k], x)
    decreases |data|
  {
    if |data| > size && k > 0 {
      ChunksAre(data[size..], size, x, k - 1);
    }
  }

  lemma YStays<B>(size: nat, s: State<B>, p: seq<B>, spare: seq<B>, c: nat, y: B)
    requires Sound(size, s) && c < |Held(s)| && AllAre(p, y)
    requires y in Held(s)[c] || Overwrites(size, s, Write(p, spare), c)
    ensures var s' := WriteTo(size, s, p, spare); c < |Held(s')| && y in Held(s')[c]
  {
    var s' := WriteTo(size, s, p, spare);
    WriteKeeps(size, s, p, spare, c);
    if Overwrites(size, s, Write(p, spare), c) {
      var v := s.queue[c - |s.taken|];
      var k := if v.start < s.len then s.len else v.start;
      assert s'.queue[c - |s.taken|] == v;
      assert s'.mem[s.cur][k] == p[k - s.len] == y;
      assert Held(s')[c][k - v.start] == y;
    }
  }

  lemma PaintedStep<B>(size: nat, s: State<B>, op: Op<B>, c: nat, x: B, y: B, overwritten: bool)
    requires Sound(size, s) && Betrayed(size, s, c, x, y, overwritten)
    requires op.Write? ==> AllAre(op.p, if |s.sent| <= c then x else y)
    ensures Betrayed(size, Step(size, s, op), c, x, y, overwritten || Overwrites(size, s, op, c))
  {
    match op {
      case Write(p, spare) =>
        HeldGrows(size, s, p, spare);
        if |s.sent| > c {
          if overwritten || Overwrites(size, s, op, c) {
            YStays(size, s, p, spare, c, y);
          }
        } else if size > 0 {
          WriteAppends(size, s, p, spare);
        }
      case Sync =>
        SyncHolds(size, s);
        if |s.sent| <= c < |s.sent| + |Chunks(Data(s), size)| {
          ChunksAre(Data(s), size, x, c - |s.sent|);
        }
      case Read(room) =>
        ReadHolds(s, room);
    }
  }

  lemma {:induction false} PaintedBetrays<B>(size: nat, ops: seq<Op<B>>, c: nat, x: B, y: B)
    ensures var painted := Painted(size, ops, c, x, y);
            Betrayed(size, Run(size, painted), c, x, y, Overwritten(size, painted, c))
  {
    var painted := Painted(size, ops, c, x, y);
    if ops == [] {
      assert Data(Run(size, painted)) == [];
    } else {
      var m := |ops| - 1;
      PaintedBetrays(size, ops[..m], c, x, y);
      assert painted[..m] == Painted(size, ops[..m], c, x, y);
      PaintedStep(size, Run(size, painted[..m]), painted[m], c, x, y, Overwritten(size, painted[..m], c));
    }
  }

  /** Exactly when the bytes come back: whatever bytes are written, a run of this shape reads back
      everything, if and only if no Write overwrites a chunk that has not been read, and no read is short. */
  lemma ReadBackIff<B>(size: nat, ops: seq<Op<B>>, x: B, y: B)
    requires x != y
    ensures (forall same: seq<Op<B>> :: SameShape(ops, same) ==> Intact(size, Run(size, same)))
       <==> NoneOverwritten(size, ops) && Run(size, ops).dropped == 0
  {
    if NoneOverwritten(size, ops) && Run(size, ops).dropped == 0 {
      forall same: seq<Op<B>> | SameShape(ops, same) ensures Intact(size, Run(size, same)) {
        ReadBack(size, ops, same);
      }
    } else if c :| Overwritten(size, ops, c) {
      var painted := Painted(size, ops, c, x, y);
      OverwrittenIsRead(size, ops, c, x, y);
      assert SameShape(ops, painted) && !Intact(size, Run(size, painted));
    } else {
      RunAccounts(size, ops);
      IntactIff(size, Run(size, ops));
      assert SameShape(ops, ops);
    }
  }

  lemma ReadBack<B>(size: nat, ops: seq<Op<B>>, same: seq<Op<B>>)
    requires SameShape(ops, same)
    requires NoneOverwritten(size, ops) && Run(size, ops).dropped == 0
    ensures Intact(size, Run(size, same))
  {
    forall c ensures !Overwritten(size, same, c) {
      SameShapeSameLayout(size, ops, same, c);
    }
    SameShapeSameLayout(size, ops, same, 0);
    ChunksStay(size, same);
    RunAccounts(size, same);
    IntactIff(size, Run(size, same));
  }

  lemma OverwrittenIsRead<B>(size: nat, ops: seq<Op<B>>, c: nat, x: B, y: B)
    requires x != y && Overwritten(size, ops, c)
    ensures !Intact(size, Run(size, Painted(size, ops, c, x, y)))
  {
    var painted := Painted(size, ops, c, x, y);
    SameShapeSameLayout(size, ops, painted, c);
    PaintedBetrays(size, ops, c, x, y);
    var s := Run(size, painted);
    var k :| 0 <= k < |Held(s)[c]| && Held(s)[c][k] == y;
    assert Held(s)[c] != s.sent[c];
    RunAccounts(size, painted);
    IntactIff(size, s);
  }

  // ----- which runs are safe -----

  /** Without a chunk size every Write sends an array of its own. */
  lemma {:induction false} WithoutChunkSize<B>(ops: seq<Op<B>>, c: nat)
    ensures !Overwritten(0, ops, c)
  {
    if ops != [] {
      WithoutChunkSize(ops[..|ops| - 1], c);
    }
  }

  /** Whenever bytes are written, the reader has emptied the channel. */
  ghost predicate DrainedBeforeWrites<B>(size: nat, ops: seq<Op<B>>) {
    ops != [] ==>
      var m := |ops| - 1;
      && DrainedBeforeWrites(size, ops[..m])
      && (ops[m].Write? && ops[m].p != [] ==> Run(size, ops[..m]).queue == [])
  }

  lemma {:induction false} DrainedIsSafe<B>(size: nat, ops: seq<Op<B>>, c: nat)
    requires DrainedBeforeWrites(size, ops)
    ensures !Overwritten(size, ops, c)
  {
    if ops != [] {
      DrainedIsSafe(size, ops[..|ops| - 1], c);
    }
  }

  lemma RunSplit<B>(size: nat, ops: seq<Op<B>>, op: Op<B>)
    ensures Run(size, ops + [op]) == Step(size, Run(size, ops), op)
  {
    assert (ops + [op])[..|ops|] == ops;
  }

  /** In any run, the first bytes written after a Sync of pending bytes, if they fit where these were,
      overwrite the chunk that this Sync sent first. */
  lemma WriteAfterSyncOverwrites<B>(size: nat, ops: seq<Op<B>>, q: seq<B>, spare: seq<B>)
    requires size > 0 && Run(size, ops).len > 0
    requires q != [] && |q| <= |Run(size, ops).mem[Run(size, ops).cur]|
    ensures Overwritten(size, ops + [Sync] + [Write(q, spare)], |Run(size, ops).sent|)
  {
    var w: Op<B> := Write(q, spare);
    RunAccounts(size, ops);
    RunSplit(size, ops, Sync);
    FirstChunkIsHit(size, Run(size, ops), w);
    assert (ops + [Sync] + [w])[..|ops| + 1] == ops + [Sync];
  }

  lemma FirstChunkIsHit<B>(size: nat, s: State<B>, w: Op<B>)
    requires Sound(size, s) && size > 0 && s.len > 0 && |s.sent| == |s.taken| + |s.queue|
    requires w.Write? && w.p != [] && |w.p| <= |s.mem[s.cur]|
    ensures Overwrites(size, Step(size, s, Sync), w, |s.sent|)
  {
    var views := Views(s.cur, 0, s.len, size);
    assert (s.queue + views)[|s.queue|] == views[0] == View(s.cur, 0, Min(size, s.len));
  }

  lemma AfterSync<B>(size: nat, p: seq<B>, spare: seq<B>)
    requires size > 0 && p != []
    ensures var s := Run(size, [Write(p, spare), Sync]);
            && s.mem == [[], p + spare] && s.cur == 1 && s.len == 0 && s.taken == [] && s.sent == Chunks(p, size)
            && s.written == p && s.delivered == [] && s.dropped == 0
            && s.queue == Views(1, 0, |p|, size)
  {
    var w: Op<B> := Write(p, spare);
    FirstBatch(size, p, spare);
    RunSplit(size, [], w);
    RunSplit(size, [w], Sync);
    assert [] + [w] == [w] && [w] + [Op<B>.Sync] == [w, Sync];
  }

  lemma FirstBatch<B>(size: nat, p: seq<B>, spare: seq<B>)
    requires size > 0 && p != []
    ensures var s := Step(size, Step(size, Init(), Write(p, spare)), Sync);
            && s.mem == [[], p + spare] && s.cur == 1 && s.len == 0 && s.taken == [] && s.sent == Chunks(p, size)
            && s.written == p && s.delivered == [] && s.dropped == 0
            && s.queue == Views(1, 0, |p|, size)
  {
    var s := Step(size, Init(), Write(p, spare));
    assert Data(Init<B>()) == [] && [] + p + spare == p + spare;
    assert s.mem == [[], p + spare] && Data(s) == p;
  }

  function TwoBatches<B>(size: nat, p: seq<B>, q: seq<B>): seq<Op<B>> {
    [Write(p, []), Sync] + [Write(q, [])] + [Sync] + [Read(size)] + [Read(size)]
  }

  /** For instance, two batches of one chunk each, written and synced before anything is read: the reader
      gets the second batch twice, and no read is short. */
  lemma SecondBatchTwice<B>(size: nat, p: seq<B>, q: seq<B>)
    requires |p| == |q| == size > 0
    ensures var s := Run(size, TwoBatches(size, p, q));
            s.written == p + q && s.sent == [p, q] && s.dropped == 0 && s.delivered == q + q
  {
    var batch: seq<Op<B>> := [Write(p, []), Sync];
    AfterSync(size, p, []);
    OneChunk(size, p);
    ThenSecondBatch(size, batch, p, q);
  }

  lemma ThenSecondBatch<B>(size: nat, batch: seq<Op<B>>, p: seq<B>, q: seq<B>)
    requires |q| == size > 0
    requires var s := Run(size, batch);
             && |s.mem| == 2 && |s.mem[1]| == size && s.cur == 1 && s.len == 0
             && s.queue == [View(1, 0, size)] && s.sent == [p] && s.written == p && s.delivered == [] && s.dropped == 0
    ensures var s := Run(size, batch + [Write(q, [])] + [Sync] + [Read(size)] + [Read(size)]);
            s.written == p + q && s.sent == [p, q] && s.dropped == 0 && s.delivered == q + q
  {
    var w: Op<B>, r: Op<B> := Write(q, []), Read(size);
    SecondBatch(size, Run(size, batch), q);
    RunSplit(size, batch, w);
    RunSplit(size, batch + [w], Sync);
    TwoReads(size, Run(size, batch + [w] + [Sync]), q);
    RunSplit(size, batch + [w] + [Sync], r);
    RunSplit(size, batch + [w] + [Sync] + [r], r);
  }

  lemma OneChunk<B>(size: nat, p: seq<B>)
    requires |p| == size > 0
    ensures p + [] == p && Chunks(p, size) == [p] && Views(1, 0, size, size) == [View(1, 0, size)]
  {
  }

  lemma SecondBatch<B>(size: nat, s: State<B>, q: seq<B>)
    requires Sound(size, s) && size > 0 && |s.mem| == 2 && s.cur == 1 && s.len == 0 && |s.mem[1]| == |q| == size
    ensures var t := Step(size, Step(size, s, Write(q, [])), Sync);
            && t.mem == s.mem[1 := q] && t.queue == s.queue + [View(1, 0, size)] && t.sent == s.sent + [q]
            && t.written == s.written + q && t.taken == s.taken && t.delivered == s.delivered && t.dropped == s.dropped
  {
    var u := Step(size, s, Write(q, []));
    assert Data(s) == [] && u.mem[1] == q && Data(u) == q;
    assert Views(1, 0, size, size) == [View(1, 0, size)];
  }

  lemma TwoReads<B>(size: nat, s: State<B>, q: seq<B>)
    requires Sound(size, s) && |s.mem| == 2 && s.mem[1] == q && |q| == size
    requires s.queue == [View(1, 0, size)] + [View(1, 0, size)] && s.delivered == []
    ensures var t := Step(size, Step(size, s, Read(size)), Read(size));
            && t.delivered == q + q && t.dropped == s.dropped && t.sent == s.sent && t.written == s.written
  {
    assert At(s.mem, View(1, 0, size)) == q;
    var t := Step(size, s, Read(size));
    assert t.queue == [View(1, 0, size)] && t.delivered == q;
  }
}
