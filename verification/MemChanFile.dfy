/** MemChanFile of core/sys/util.go: written bytes are cut into chunks that travel through a channel to a
    reader. The methods follow the steps of ChunkMemory, where the runs are studied. */
module MemChanFile {
  import opened ChunkMemory

  /** A slice in the channel: the cells start..end of an array. */
  datatype Chunk<B> = Chunk(cells: array<B>, start: nat, end: nat)

  datatype Outcome = Copied(n: nat) | Eof | ShortBuffer

  class MemChanFile<B> {
    const chunkWriteSize: nat
    // the slice f.data: the first `len` cells of an array
    var buf: array<B>
    var len: nat
    var buffer: seq<Chunk<B>>
    var closed: bool
    /** All arrays ever used, and what they, the slice and the channel amount to. */
    ghost var arrays: seq<array<B>>
    ghost var state: State<B>

    ghost predicate Valid()
      reads this, arrays
    {
      && Sound(chunkWriteSize, state)
      && Stores(state.mem)
      && buf == arrays[state.cur] && len == state.len
      && Carries(buffer, state.queue)
    }

    ghost predicate Stores(mem: seq<seq<B>>)
      reads this, arrays
    {
      && |arrays| == |mem|
      && (forall i :: 0 <= i < |arrays| ==> arrays[i][..] == mem[i])
      && (forall i, j :: 0 <= i < j < |arrays| ==> arrays[i] != arrays[j])
    }

    /** The chunks in the channel are these views. */
    ghost predicate Carries(chunks: seq<Chunk<B>>, views: seq<View>)
      reads this
    {
      |chunks| == |views| && forall i :: 0 <= i < |chunks| ==> IsView(chunks[i], views[i])
    }

    ghost predicate IsView(c: Chunk<B>, v: View)
      reads this
    {
      v.id < |arrays| && c == Chunk(arrays[v.id], v.start, v.end)
    }

    constructor (chunkWriteSize: nat)
      ensures Valid() && this.chunkWriteSize == chunkWriteSize && !closed
      ensures fresh(arrays) && state == Init()
    {
      this.chunkWriteSize := chunkWriteSize;
      var none := new B[0];
      buf, len, buffer, closed := none, 0, [], false;
      arrays, state := [none], Init();
    }

    /** `spare` is what a new array holds behind the bytes written, if append or the pool provides one. */
    method Write(p: seq<B>, spare: seq<B>) returns (n: nat)
      requires Valid() && !closed
      modifies this, buf
      ensures Valid() && closed == old(closed)
      ensures forall a :: a in arrays ==> a in old(arrays) || fresh(a)
      ensures n == |p| && state == Step(chunkWriteSize, old(state), Op.Write(p, spare))
    {
      if chunkWriteSize == 0 {
        WriteThrough(p);
      } else if len + |p| <= buf.Length {
        Append(p);
      } else {
        Grow(p, spare);
      }
      n := |p|;
    }

    /** Without a chunk size the bytes are copied and sent at once. */
    method WriteThrough(p: seq<B>)
      requires Valid() && chunkWriteSize == 0
      modifies this`buffer, this`arrays, this`state
      ensures Valid() && forall a :: a in arrays ==> a in old(arrays) || fresh(a)
      ensures state == WriteTo(0, old(state), p, [])
    {
      var data := NewArray(p);
      buffer := buffer + [Chunk(data, 0, |p|)];
      arrays := arrays + [data];
      state := WriteTo(0, state, p, []);
    }

    /** append into the cells behind the pending bytes. */
    method Append(p: seq<B>)
      requires Valid() && chunkWriteSize > 0 && len + |p| <= buf.Length
      modifies this`len, this`state, buf
      ensures Valid()
      ensures forall spare :: state == WriteTo(chunkWriteSize, old(state), p, spare)
    {
      CopyTo(p);
      len := len + |p|;
      state := WriteTo(chunkWriteSize, state, p, []);
      assert forall i :: 0 <= i < |arrays| && i != state.cur ==> arrays[i] != buf;
    }

    /** append into a new array. */
    method Grow(p: seq<B>, spare: seq<B>)
      requires Valid() && chunkWriteSize > 0 && len + |p| > buf.Length
      modifies this`buf, this`len, this`arrays, this`state
      ensures Valid() && forall a :: a in arrays ==> a in old(arrays) || fresh(a)
      ensures state == WriteTo(chunkWriteSize, old(state), p, spare)
    {
      buf := NewArray(buf[..len] + p + spare);
      arrays := arrays + [buf];
      state := WriteTo(chunkWriteSize, state, p, spare);
      len := len + |p|;
    }

    method NewArray(bytes: seq<B>) returns (a: array<B>)
      ensures fresh(a) && a[..] == bytes
    {
      a := new B[|bytes|](i requires 0 <= i < |bytes| => bytes[i]);
    }

    method CopyTo(p: seq<B>)
      requires len + |p| <= buf.Length
      modifies buf
      ensures buf[..] == old(buf[..])[..len] + p + old(buf[..])[len + |p|..]
    {
      forall i | 0 <= i < |p| {
        buf[len + i] := p[i];
      }
    }

    method Sync()
      requires Valid() && !closed
      modifies this`buffer, this`len, this`state
      ensures Valid() && state == Step(chunkWriteSize, old(state), Op.Sync)
    {
      SendPending();
      state := Step(chunkWriteSize, state, Op.Sync);
      len := 0;
    }

    /** Sync's loop. */
    method SendPending()
      requires Valid()
      modifies this`buffer
      ensures Carries(buffer, state.queue + Views(state.cur, 0, len, chunkWriteSize))
    {
      ghost var views := state.queue;
      var current := 0;
      while current < len
        invariant 0 <= current
        invariant Carries(buffer, views)
        invariant views + Views(state.cur, current, len, chunkWriteSize)
               == state.queue + Views(state.cur, 0, len, chunkWriteSize)
        decreases len - current
      {
        var end := current + chunkWriteSize;
        if end > len {
          end := len;
        }
        ViewsStep(views, state.cur, current, len, chunkWriteSize);
        buffer, views := buffer + [Chunk(buf, current, end)], views + [View(state.cur, current, end)];
        current := current + chunkWriteSize;
      }
      assert Views(state.cur, current, len, chunkWriteSize) == [];
      assert views == state.queue + Views(state.cur, 0, len, chunkWriteSize);
    }

    method Close()
      requires Valid() && !closed
      modifies this`closed
      ensures Valid() && closed
    {
      closed := true;
    }

    /** Reads what the first chunk in the channel shows now; without one, and the channel still open, the
        call waits. A chunk that does not fit is gone. */
    method Read(p: array<B>) returns (r: Outcome)
      requires Valid() && (buffer != [] || closed) && p !in arrays
      modifies p, this`buffer, this`state
      ensures Valid() && state == Step(chunkWriteSize, old(state), Op.Read(p.Length))
      ensures r == Eof <==> old(state).queue == []
      ensures !r.Eof? ==>
                var c := At(old(state).mem, old(state).queue[0]);
                if |c| > p.Length then r == ShortBuffer && p[..] == old(p[..])
                else r == Copied(|c|) && p[..|c|] == c && p[|c|..] == old(p[..])[|c|..]
      ensures r.Eof? ==> p[..] == old(p[..])
    {
      if buffer == [] {
        return Eof;
      }
      var received := buffer[0];
      assert IsView(received, state.queue[0]) && InMemory(state.mem, state.queue[0]);
      ghost var c := At(state.mem, state.queue[0]);
      assert received.cells[received.start..received.end] == c;
      var n := received.end - received.start;
      if n <= p.Length {
        forall i | 0 <= i < n {
          p[i] := received.cells[received.start + i];
        }
        assert p[..n] == c;
      }
      buffer, state := buffer[1..], ReadOne(state, p.Length);
      r := if n > p.Length then ShortBuffer else Copied(n);
    }
  }

  lemma ViewsStep(views: seq<View>, id: nat, from: nat, len: nat, size: nat)
    requires from < len && size >= 1
    ensures var v := View(id, from, if from + size > len then len else from + size);
            views + Views(id, from, len, size) == views + [v] + Views(id, from + size, len, size)
  {
  }
}
