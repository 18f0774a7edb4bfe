/** pipe.c: a ring buffer between processes, as the atomic sections its lock makes of it. */
module Pipe {
  const PIPESIZE: nat := 512
  const UINT: nat := 0x1_0000_0000

  /** How a section ends: the call returns a count or -1, or its process goes to sleep with the lock released. */
  datatype Outcome = Returned(n: nat) | Failed | Asleep

  lemma Wrap(a: nat)
    ensures a % UINT % PIPESIZE == a % PIPESIZE
  {
    assert a == a / UINT * UINT + a % UINT;
    assert UINT == 8388608 * PIPESIZE;
    Multiple(a / UINT * 8388608, a % UINT);
  }

  lemma Multiple(q: nat, r: nat)
    ensures (q * PIPESIZE + r) % PIPESIZE == r % PIPESIZE
  {
    var s := r / PIPESIZE;
    assert q * PIPESIZE + r == (q + s) * PIPESIZE + r % PIPESIZE;
  }

  /** Free-running counters: full and empty are told apart, and the unread count is their difference modulo 2^32. */
  lemma Counters(taken: nat, appended: nat)
    requires taken <= appended <= taken + PIPESIZE
    ensures (appended % UINT - taken % UINT) % UINT == appended - taken
    ensures appended % UINT == taken % UINT <==> appended == taken
    ensures appended % UINT == (taken % UINT + PIPESIZE) % UINT <==> appended == taken + PIPESIZE
  {
  }

  /** The unread bytes are in the buffer, each in its slot. */
  ghost predicate Stored<T>(buf: seq<T>, appended: seq<T>, taken: nat) {
    |buf| == PIPESIZE && taken <= |appended| && forall k :: taken <= k < |appended| ==> buf[k % PIPESIZE] == appended[k]
  }

  lemma StoredMore<T>(buf: seq<T>, appended: seq<T>, taken: nat, x: T)
    requires Stored(buf, appended, taken) && |appended| < taken + PIPESIZE
    ensures Stored(buf[|appended| % PIPESIZE := x], appended + [x], taken)
  {
    var a := appended + [x];
    forall k | taken <= k < |a|
      ensures buf[|appended| % PIPESIZE := x][k % PIPESIZE] == a[k]
    {
      Slots(k, |appended|);
    }
  }

  lemma StoredLess<T>(buf: seq<T>, appended: seq<T>, taken: nat)
    requires Stored(buf, appended, taken) && taken < |appended|
    ensures Stored(buf, appended, taken + 1) && buf[taken % PIPESIZE] == appended[taken]
  {
  }

  class Buffer<T> {
    const data: array<T>
    var nread: nat
    var nwrite: nat
    var readopen: bool
    var writeopen: bool
    var readers: set<nat>         // asleep on nread
    var writers: set<nat>         // asleep on nwrite
    ghost var appended: seq<T>    // every byte ever written
    ghost var taken: nat          // how many of them have been read

    ghost predicate Counted()
      reads this
    {
      && taken <= |appended| <= taken + PIPESIZE
      && nread == taken % UINT && nwrite == |appended| % UINT
    }

    /** A sleeping reader has nothing to read, a sleeping writer no room, and each has someone to wait for. */
    ghost predicate NobodyStuck()
      reads this
    {
      && (readers != {} ==> taken == |appended| && writeopen)
      && (writers != {} ==> |appended| == taken + PIPESIZE && readopen)
    }

    ghost predicate Valid()
      reads this, data
    {
      data.Length == PIPESIZE && Counted() && Stored(data[..], appended, taken)
    }

    constructor (blank: T)
      ensures Valid() && NobodyStuck() && fresh(data) && appended == [] && taken == 0 && readopen && writeopen
        && readers == writers == {}
    {
      data := new T[PIPESIZE](_ => blank);
      nread, nwrite, readopen, writeopen := 0, 0, true, true;
      readers, writers, appended, taken := {}, {}, [], 0;
    }

    /** One byte into the ring. */
    method Put(x: T)
      requires Valid() && |appended| < taken + PIPESIZE
      modifies data, this`nwrite, this`appended
      ensures Valid() && appended == old(appended) + [x]
    {
      hide Stored;
      Wrap(|appended|);
      StoredMore(data[..], appended, taken, x);
      data[nwrite % PIPESIZE] := x;
      assert data[..] == old(data[..])[|old(appended)| % PIPESIZE := x];
      nwrite := (nwrite + 1) % UINT;
      appended := appended + [x];
    }

    /** One byte out of the ring. */
    method Get() returns (x: T)
      requires Valid() && taken < |appended|
      modifies this`nread, this`taken
      ensures Valid() && taken == old(taken) + 1 && x == appended[old(taken)]
    {
      hide Stored;
      Wrap(taken);
      StoredLess(data[..], appended, taken);
      x := data[nread % PIPESIZE];
      nread := (nread + 1) % UINT;
      taken := taken + 1;
    }

    /**
     * A section of pipewrite, from where it holds the lock with `i` bytes written so far. A writer whose
     * process was killed, or whose reader is gone, and that has more bytes than the pipe holds leaves the
     * readers it should have woken asleep; nothing else does.
     */
    method Write(me: nat, addr: seq<T>, i: nat, killed: bool) returns (r: Outcome, j: nat)
      requires Valid() && i <= |addr| && me !in writers
      modifies this, data
      ensures Valid() && unchanged(`taken, `nread, `readopen, `writeopen)
      ensures i <= j <= |addr| && appended == old(appended) + addr[i..j]
      ensures r.Returned? ==> r.n == j == |addr| && readers == {} && writers == old(writers)
      ensures r.Failed? ==> j < |addr| && (!readopen || killed) && readers == old(readers) && writers == old(writers)
      ensures r.Asleep? ==> j < |addr| && readopen && !killed && readers == {} && writers == old(writers) + {me}
      ensures !r.Returned? ==> |appended| == taken + PIPESIZE
      ensures old(NobodyStuck()) ==> (NobodyStuck() <==> !(r.Failed? && j > i && readers != {}))
      ensures old(NobodyStuck()) ==>
                (NobodyStuck() <==> !(old(readers) != {} && (!readopen || killed) && |addr| - i > PIPESIZE))
    {
      hide Stored;
      j := i;
      while j < |addr|
        invariant Valid() && i <= j <= |addr| && appended == old(appended) + addr[i..j]
        invariant unchanged(`taken, `nread, `readopen, `writeopen, `readers, `writers)
      {
        Counters(taken, |appended|);
        if nwrite == (nread + PIPESIZE) % UINT {
          if !readopen || killed {
            return Failed, j;
          }
          readers := {};
          writers := writers + {me};
          return Asleep, j;
        }
        Put(addr[j]);
        j := j + 1;
      }
      readers := {};
      r := Returned(j);
    }

    /** A section of piperead: it gives the next bytes written and not yet read, and as many as there are, up to `n`. */
    method Read(me: nat, n: int, killed: bool) returns (r: Outcome, got: seq<T>)
      requires Valid() && me !in readers
      modifies this
      ensures Valid() && (old(NobodyStuck()) ==> NobodyStuck()) && unchanged(`appended, `nwrite, `readopen, `writeopen)
      ensures taken == old(taken) + |got| && got == appended[old(taken)..taken]
      ensures r.Returned? ==>
        r.n == |got| && (|got| == n || (n < 0 && got == []) || taken == |appended|) && writers == {}
        && readers == old(readers)
      ensures !r.Returned? ==> got == [] && old(taken) == |appended| && writeopen && writers == old(writers)
      ensures r.Failed? <==> old(taken) == |appended| && writeopen && killed
      ensures r.Asleep? <==> old(taken) == |appended| && writeopen && !killed
      ensures r.Failed? ==> readers == old(readers)
      ensures r.Asleep? ==> readers == old(readers) + {me}
    {
      hide Stored;
      got := [];
      Counters(taken, |appended|);
      if nread == nwrite && writeopen {
        if killed {
          return Failed, got;
        }
        readers := readers + {me};
        return Asleep, got;
      }
      while |got| < n
        invariant Valid() && taken == old(taken) + |got| && got == appended[old(taken)..taken] && (n < 0 ==> got == [])
          && (n >= 0 ==> |got| <= n)
        invariant unchanged(`appended, `nwrite, `readopen, `writeopen, `readers, `writers)
        decreases n - |got|
      {
        Counters(taken, |appended|);
        if nread == nwrite {
          break;
        }
        var x := Get();
        got := got + [x];
      }
      writers := {};
      r := Returned(|got|);
    }

    /** pipeclose */
    method Close(writable: bool) returns (freed: bool)
      requires Valid()
      modifies this`readopen, this`writeopen, this`readers, this`writers
      ensures Valid() && (old(NobodyStuck()) ==> NobodyStuck()) && (freed <==> !readopen && !writeopen)
      ensures writable ==> !writeopen && readopen == old(readopen) && readers == {} && writers == old(writers)
      ensures !writable ==> !readopen && writeopen == old(writeopen) && writers == {} && readers == old(readers)
    {
      if writable {
        writeopen := false;
        readers := {};
      } else {
        readopen := false;
        writers := {};
      }
      freed := !readopen && !writeopen;
    }
  }

  /** A killed writer that fills the pipe leaves a reader asleep beside a full buffer. */
  method RefusedWriter<T>(x: T) returns (p: Buffer<T>)
    ensures fresh(p) && p.Valid() && p.readers != {} && |p.appended| == p.taken + PIPESIZE && !p.NobodyStuck()
  {
    p := new Buffer(x);
    var r, got := p.Read(1, 1, false);
    var w, j := p.Write(2, seq(PIPESIZE + 1, _ => x), 0, true);
  }

  /** Two bytes that are in the pipe together have different slots. */
  lemma Slots(a: nat, b: nat)
    requires a <= b < a + PIPESIZE
    ensures a % PIPESIZE == b % PIPESIZE <==> a == b
  {
  }
}
