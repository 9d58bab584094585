/** One turn of pipewrite and piperead with the pipe's lock held (xv6-public/pipe.c): from the
    acquire, or the return from sleep, to the release. */
module PipeCode {
  import opened PipeRing
  import opened Options
  import opened Params

  class PipeObject {
    const data: array<Byte>
    var nread: nat
    var nwrite: nat
    var readopen: bool
    var writeopen: bool
    ghost var written: seq<Byte>
    ghost var taken: seq<Byte>

    ghost function Abs(): Ring
      reads this, data
    {
      Ring(data[..], nread, nwrite, readopen, writeopen, written, taken)
    }

    ghost predicate Valid()
      reads this, data
    {
      data.Length == PIPESIZE && RingOk(Abs())
    }

    /** pipealloc. */
    constructor ()
      ensures Valid() && fresh(data) && nread == 0 && nwrite == 0 && readopen && writeopen && written == []
      ensures taken == []
    {
      data := new Byte[PIPESIZE];
      nread, nwrite, readopen, writeopen := 0, 0, true, true;
      written, taken := [], [];
    }

    /** How a turn of pipewrite ends, `done` bytes on: it returns n, it returns -1, or it sleeps. */
    method WriteTurn(addr: seq<Byte>, killed: bool) returns (done: nat, failed: bool)
      requires Valid()
      modifies this`nwrite, this`written, data
      ensures Valid() && Abs() == StoreAll(old(Abs()), addr) && done <= |addr| && written == old(written) + addr[..done]
      ensures failed <==> done < |addr| && (!readopen || killed)
      ensures done < |addr| ==> Full(Abs())
    {
      hide RingOk, Store;
      ghost var r0 := Abs();
      done := 0;
      assert addr[0..] == addr;
      while done < |addr|
        invariant 0 <= done <= |addr| && Valid() && written == old(written) + addr[..done]
        invariant StoreAll(r0, addr) == StoreAll(Abs(), addr[done..])
      {
        if nwrite == (nread + PIPESIZE) % UINT_LIMIT {
          return done, !readopen || killed;
        }
        StoreByte(addr[done]);
        assert addr[done..][1..] == addr[done + 1..];
        assert addr[..done + 1] == addr[..done] + [addr[done]];
        done := done + 1;
      }
      failed := false;
    }

    method StoreByte(b: Byte)
      requires Valid() && !Full(Abs())
      modifies this`nwrite, this`written, data
      ensures Valid() && Abs() == Store(old(Abs()), b) && written == old(written) + [b]
    {
      ghost var r := Abs();
      StoreOk(r, b);
      data[nwrite % PIPESIZE] := b;
      nwrite := (nwrite + 1) % UINT_LIMIT;
      written := written + [b];
      assert Abs() == Store(r, b);
    }

    method FetchByte() returns (b: Byte)
      requires Valid() && !Empty(Abs())
      modifies this`nread, this`taken
      ensures Valid() && Abs() == Fetch(old(Abs())) && taken == old(taken) + [b]
    {
      FetchOk(Abs());
      b := data[nread % PIPESIZE];
      nread := (nread + 1) % UINT_LIMIT;
      taken := taken + [b];
    }

    /** A turn of piperead: Some(Some(bytes)) when it returns them, Some(None) when it returns -1,
        None when it sleeps. */
    method ReadTurn(n: nat, killed: bool) returns (r: Option<Option<seq<Byte>>>)
      requires Valid()
      modifies this`nread, this`taken
      ensures Valid()
      ensures Empty(old(Abs())) && writeopen ==> Abs() == old(Abs()) && r == if killed then Some(None) else None
      ensures !(Empty(old(Abs())) && writeopen) ==>
                && r.Some? && r.value.Some? && |r.value.value| <= n && taken == old(taken) + r.value.value
                && Abs() == FetchAll(old(Abs()), n) && (|r.value.value| < n ==> Empty(Abs()))
    {
      hide RingOk;
      if nread == nwrite && writeopen {
        return if killed then Some(None) else None;
      }
      var addr := CopyOut(n);
      return Some(Some(addr));
    }

    /** The copy loop of piperead. */
    method CopyOut(n: nat) returns (addr: seq<Byte>)
      requires Valid()
      modifies this`nread, this`taken
      ensures Valid() && Abs() == FetchAll(old(Abs()), n) && taken == old(taken) + addr
      ensures |addr| <= n && (|addr| < n ==> Empty(Abs()))
    {
      hide RingOk, Fetch;
      ghost var r0 := Abs();
      addr := [];
      var i := 0;
      while i < n
        invariant 0 <= i <= n && |addr| == i && Valid() && taken == old(taken) + addr
        invariant FetchAll(r0, n) == FetchAll(Abs(), n - i)
      {
        if nread == nwrite {
          break;
        }
        var b := FetchByte();
        addr := addr + [b];
        i := i + 1;
      }
    }
  }
}
