/** Reading, writing and copying over calls that may be short, interrupted or failing. */
module IoAll {
  import opened Bytes
  import opened Crc32
  import opened Wire

  const BUFFER_SIZE := 4096

  /** An error other than an interruption. */
  type Errno = e: int | e > 0 && e != 4 witness 5

  /** How the next read or write call behaves; without events, calls transfer all they can. */
  datatype Event = Interrupted | Failed(errno: Errno) | AtMost(n: nat)

  /** No call fails; interrupted and short calls may still occur. */
  predicate Undisturbed(events: seq<Event>) {
    forall i :: 0 <= i < |events| ==> !events[i].Failed?
  }

  /** No call fails or is interrupted; only short calls occur. */
  predicate Calm(events: seq<Event>) {
    forall i :: 0 <= i < |events| ==> events[i].AtMost?
  }

  function DropFirst(events: seq<Event>): seq<Event> {
    if events == [] then [] else events[1..]
  }

  /** Bytes a call for `wanted` transfers when at most `available` can be. */
  function Transferred(events: seq<Event>, wanted: nat, available: nat): (n: nat)
    ensures n <= wanted && n <= available && (wanted > 0 && available > 0 ==> n > 0)
  {
    var most := Min(wanted, available);
    if events != [] && events[0].AtMost? then Min(Max(events[0].n, 1), most) else most
  }

  class Source {
    var data: seq<byte>
    var events: seq<Event>

    constructor (data: seq<byte>, events: seq<Event>)
      ensures this.data == data && this.events == events
    {
      this.data, this.events := data, events;
    }

    /** read(2): -1 with an errno, 0 at the end, or a non-empty piece from the front. */
    method Read(count: nat) returns (ret: int, errno: int, chunk: seq<byte>)
      requires count > 0
      modifies this
      ensures events == DropFirst(old(events))
      ensures ret >= -1 && (ret < 0 ==> data == old(data) && old(events) != [] && errno > 0)
      ensures ret < 0 ==> if errno == EINTR then old(events)[0].Interrupted? else old(events)[0].Failed?
      ensures ret == 0 ==> data == old(data) == []
      ensures ret > 0 ==> |chunk| == ret <= count && old(data) == chunk + data
    {
      chunk, errno := [], 0;
      if events != [] && events[0] == Interrupted {
        ret, errno := -1, EINTR;
      } else if events != [] && events[0].Failed? {
        ret, errno := -1, events[0].errno;
      } else {
        ret := Transferred(events, count, |data|);
        chunk, data := data[..ret], data[ret..];
      }
      events := DropFirst(events);
    }

    /** read_all: exactly `size` bytes, whatever the pieces they come in. */
    method ReadAll(size: nat) returns (ok: bool, errno: int, buf: seq<byte>)
      modifies this
      ensures ok ==> |buf| == size && old(data) == buf + data
      ensures Undisturbed(old(events)) ==> Undisturbed(events) && (ok <==> size <= |old(data)|) && (!ok ==> errno == 0)
      ensures !ok ==> errno >= 0 && |buf| < size
      ensures Calm(old(events)) ==> Calm(events)
    {
      buf := [];
      errno := 0;
      while |buf| < size
        invariant |buf| <= size && old(data) == buf + data
        invariant Undisturbed(old(events)) ==> Undisturbed(events)
        invariant Calm(old(events)) ==> Calm(events)
        decreases |events|, size - |buf|
      {
        var ret, e, chunk := Read(size - |buf|);
        if ret == -1 && e == EINTR {
          continue;
        }
        if ret == 0 {
          return false, 0, buf;
        }
        if ret < 0 {
          return false, e, buf;
        }
        buf := buf + chunk;
      }
      ok := true;
    }
  }

  class Sink {
    var data: seq<byte>
    var events: seq<Event>

    constructor (events: seq<Event>)
      ensures data == [] && this.events == events
    {
      this.data, this.events := [], events;
    }

    /** write(2) */
    method Write(b: seq<byte>) returns (ret: int, errno: int)
      requires b != []
      modifies this
      ensures events == DropFirst(old(events))
      ensures ret >= -1 && (ret <= 0 ==> ret == -1 && data == old(data) && old(events) != [])
      ensures ret < 0 ==> if errno == EINTR then old(events)[0].Interrupted? else old(events)[0].Failed?
      ensures ret > 0 ==> ret <= |b| && data == old(data) + b[..ret]
    {
      errno := 0;
      if events != [] && events[0] == Interrupted {
        ret, errno := -1, EINTR;
      } else if events != [] && events[0].Failed? {
        ret, errno := -1, events[0].errno;
      } else {
        ret := Transferred(events, |b|, |b|);
        data := data + b[..ret];
      }
      events := DropFirst(events);
    }

    /** write_all: all of b, or a failure after a prefix of it. */
    method WriteAll(b: seq<byte>) returns (ok: bool)
      modifies this
      ensures exists n :: 0 <= n <= |b| && data == old(data) + b[..n] && (ok <==> n == |b|)
      ensures Undisturbed(old(events)) ==> ok && Undisturbed(events)
    {
      var written := 0;
      assert b[..0] == [];
      while written < |b|
        invariant 0 <= written <= |b| && data == old(data) + b[..written]
        invariant Undisturbed(old(events)) ==> Undisturbed(events)
        decreases |events|, |b| - written
      {
        var ret, e := Write(b[written..]);
        if ret == -1 && e == EINTR {
          continue;
        }
        if ret <= 0 {
          assert data == old(data) + b[..written];
          return false;
        }
        assert b[..written] + b[written..][..ret] == b[..written + ret];
        written := written + ret;
      }
      assert b[..written] == b;
      assert data == old(data) + b[..|b|];
      ok := true;
    }
  }

  datatype CopyStatus = CopyOk | ReadEof | ReadError | WriteError

  /** copy_file: `size` bytes in chunks of at most 4096, with the checksum carried along. An interrupted read is an
      error here. However the reads are cut, the checksum is that of the bytes moved. */
  method CopyFile(out: Sink, src: Source, size: nat, crc: bv32)
    returns (status: CopyStatus, newCrc: bv32, moved: seq<byte>)
    modifies out, src
    ensures |moved| <= size && old(src.data) == moved + src.data
    ensures newCrc == Crc(crc, moved)
    ensures status == CopyOk ==> |moved| == size && out.data == old(out.data) + moved
    ensures status == ReadEof ==> |moved| < size && src.data == [] && out.data == old(out.data) + moved
    ensures exists n :: 0 <= n <= |moved| && out.data == old(out.data) + moved[..n]
    ensures Calm(old(src.events)) ==> Calm(src.events) && status != ReadError
    ensures Undisturbed(old(out.events)) ==> Undisturbed(out.events) && status != WriteError
    ensures Undisturbed(old(out.events)) ==> out.data == old(out.data) + moved
  {
    hide Crc;
    moved, newCrc := [], crc;
    CrcNothing(crc);
    var written := 0;
    while written < size
      invariant written == |moved| <= size && old(src.data) == moved + src.data
      invariant newCrc == Crc(crc, moved) && out.data == old(out.data) + moved
      invariant Calm(old(src.events)) ==> Calm(src.events)
      invariant Undisturbed(old(out.events)) ==> Undisturbed(out.events)
      decreases size - written
    {
      var count := Min(size - written, BUFFER_SIZE);
      var ret, _, chunk := src.Read(count);
      assert moved[..|moved|] == moved;
      if ret == 0 {
        return ReadEof, newCrc, moved;
      }
      if ret < 0 {
        return ReadError, newCrc, moved;
      }
      newCrc := ComputeBuf(newCrc, chunk);
      CrcConcat(crc, moved, chunk);
      ghost var before := moved;
      moved := moved + chunk;
      assert old(src.data) == moved + src.data;
      var ok := out.WriteAll(chunk);
      if !ok {
        ghost var n :| 0 <= n <= |chunk| && out.data == old(out.data) + before + chunk[..n];
        assert moved[..|before| + n] == before + chunk[..n];
        return WriteError, newCrc, moved;
      }
      assert out.data == old(out.data) + before + chunk;
      written := written + ret;
    }
    assert moved[..|moved|] == moved;
    status := CopyOk;
  }
}
