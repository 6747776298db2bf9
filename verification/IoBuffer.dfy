/**
 * The byte pipe that the guard's terminal relay and the console share: a fixed
 * buffer, an offset, partial reads at its end and partial writes from its front.
 */
module IoBuffers {
  import opened Bytes

  const IO_BUFFER_SIZE: nat := 1024

  /** What is buffered, all bytes ever read into the buffer, all bytes ever written from it. */
  datatype Pipe = Pipe(buf: seq<Byte>, taken: seq<Byte>, given: seq<Byte>) {

    /** Nothing lost, duplicated or reordered; the offset stays in the buffer. */
    predicate Conserves() {
      given + buf == taken && |buf| <= IO_BUFFER_SIZE
    }

    /** read(2) brought `data`; nothing for an error, an end of file or a full buffer. */
    function Fill(data: seq<Byte>): Pipe {
      Pipe(buf + data, taken + data, given)
    }

    /** write(2) took the first n bytes. */
    function Drain(n: nat): Pipe
      requires n <= |buf|
    {
      Pipe(buf[n..], taken, given + buf[..n])
    }
  }

  const EMPTY_PIPE := Pipe([], [], [])

  lemma FillConserves(p: Pipe, data: seq<Byte>)
    requires p.Conserves() && |p.buf| + |data| <= IO_BUFFER_SIZE
    ensures p.Fill(data).Conserves()
  {
    assert p.given + (p.buf + data) == p.given + p.buf + data;
  }

  lemma DrainConserves(p: Pipe, n: nat)
    requires p.Conserves() && n <= |p.buf|
    ensures p.Drain(n).Conserves()
  {
    assert p.buf == p.buf[..n] + p.buf[n..];
    assert p.given + p.buf[..n] + p.buf[n..] == p.given + p.buf;
  }

  /** What a read call is given and brings back: at most the free space. */
  predicate ReadResult(r: int, data: seq<Byte>, avail: int) {
    -1 <= r <= avail && (r > 0 ==> |data| == r)
  }

  /** The bytes a read call added. */
  function Got(r: int, data: seq<Byte>): seq<Byte> {
    if r > 0 then data else []
  }

  /** The bytes a write call took. */
  function Put(w: int): nat {
    if w > 0 then w else 0
  }

  method Store(buf: array<Byte>, offset: nat, data: seq<Byte>)
    requires offset + |data| <= buf.Length
    modifies buf
    ensures buf[..offset + |data|] == old(buf[..offset]) + data
  {
    for k := 0 to |data|
      invariant buf[..offset] == old(buf[..offset])
      invariant buf[offset..offset + k] == data[..k]
    {
      buf[offset + k] := data[k];
      assert buf[offset..offset + k + 1] == buf[offset..offset + k] + [data[k]];
    }
    assert buf[..offset + |data|] == buf[..offset] + buf[offset..offset + |data|];
  }

  /** memmove of what a partial write left over to the front of the buffer. */
  method MoveDown(buf: array<Byte>, offset: nat, written: nat)
    requires written <= offset <= buf.Length
    modifies buf
    ensures buf[..offset - written] == old(buf[written..offset])
  {
    for k := 0 to offset - written
      invariant forall j :: 0 <= j < k ==> buf[j] == old(buf[j + written])
      invariant forall j :: k <= j < buf.Length ==> buf[j] == old(buf[j])
    {
      buf[k] := buf[k + written];
    }
  }
}
