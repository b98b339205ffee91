/** A socket and a buffered writer over it, with the contracts of Go's io.Writer and bufio.Writer. */
module Writers {
  import opened Bytes

  /** A socket that may fail at any byte of any write. */
  class Socket {
    var wire: seq<byte>   // the bytes that reached the network
    var writes: nat       // the calls it took
    ghost var down: bool  // one of them came back with an error

    constructor ()
      ensures wire == [] && writes == 0 && !down
    {
      wire, writes, down := [], 0, false;
    }

    method Write(src: array<byte>, lo: nat, hi: nat) returns (n: nat, ok: bool)
      requires lo <= hi <= src.Length
      modifies this
      ensures n <= hi - lo && (ok ==> n == hi - lo)
      ensures wire == old(wire) + src[lo..lo + n]
      ensures writes == old(writes) + 1 && down == (old(down) || !ok)
    {
      ok := *;
      if ok {
        n := hi - lo;
      } else {
        n :| n <= hi - lo;
      }
      wire, writes, down := wire + src[lo..lo + n], writes + 1, down || !ok;
    }
  }

  class Writer {
    const sock: Socket
    const buf: array<byte>
    var n: nat          // how much of buf is filled
    var failed: bool    // the first error is kept for good

    /** A writer only ever fails over an error of its socket. */
    ghost predicate Valid()
      reads this, sock
    {
      n <= buf.Length && (failed ==> sock.down)
    }

    /** Everything handed over so far: on the wire, or still waiting in the buffer. */
    function Out(): seq<byte>
      requires n <= buf.Length
      reads this, buf, sock
    {
      sock.wire + buf[..n]
    }

    function Available(): nat
      requires n <= buf.Length
      reads this
    {
      buf.Length - n
    }

    constructor (sock: Socket, size: int)
      ensures Valid() && fresh(buf) && this.sock == sock && n == 0 && !failed
      ensures buf.Length == if size <= 0 then 4096 else size
    {
      this.sock := sock;
      buf := new byte[if size <= 0 then 4096 else size](_ => 0);
      n, failed := 0, false;
    }

    /** Drops the k bytes that went out and moves the rest to the front. */
    method Compact(k: nat)
      requires Valid() && k <= n
      modifies this`n, buf
      ensures Valid() && n == old(n) - k
      ensures buf[..n] == old(buf[k..n])
    {
      var left := n - k;
      for i := 0 to left
        modifies buf
        invariant forall j | 0 <= j < i :: buf[j] == old(buf[k + j])
        invariant forall j | i <= j < n :: buf[j] == old(buf[j])
      {
        buf[i] := buf[i + k];
      }
      n := left;
    }

    method Copy(src: array<byte>, lo: nat, k: nat)
      requires Valid() && lo + k <= src.Length && k <= Available()
      requires src == buf ==> lo == n
      modifies this`n, buf
      ensures Valid() && n == old(n) + k
      ensures Out() == old(Out()) + old(src[lo..lo + k])
    {
      ghost var filled, taken := buf[..n], src[lo..lo + k];
      var start := n;
      for i := 0 to k
        modifies buf
        invariant buf[..start] == filled
        invariant forall j | 0 <= j < i :: buf[start + j] == taken[j]
        invariant forall j | i <= j < k :: src[lo + j] == taken[j]
      {
        buf[start + i] := src[lo + i];
      }
      n := start + k;
      assert buf[..n] == filled + taken;
      AppendAssociates(sock.wire, filled, taken);
    }

    /** Hands the buffer to the socket. A failure loses nothing and is final. */
    method Flush() returns (ok: bool)
      requires Valid()
      modifies this, buf, sock
      ensures Valid() && ok == !failed
      ensures Out() == old(Out()) && old(sock.wire) <= sock.wire
      ensures ok ==> n == 0
      ensures (old(failed) ==> failed) && (old(sock.down) ==> sock.down)
      ensures old(failed) || old(n) == 0 ==> failed == old(failed) && sock.wire == old(sock.wire)
      ensures sock.writes == old(sock.writes) + if old(failed) || old(n) == 0 then 0 else 1
    {
      if failed {
        return false;
      }
      if n == 0 {
        return true;
      }
      var k, written := sock.Write(buf, 0, n);
      if k < n {
        written := false;
      }
      if !written {
        Compact(k);
        failed := true;
        return false;
      }
      n := 0;
      return true;
    }

    /** One round for more than fits: straight to the socket if nothing waits, else fill the buffer and flush. */
    method WriteSome(src: array<byte>, at: nat, hi: nat) returns (k: nat)
      requires Valid() && at <= hi <= src.Length && src != buf
      requires hi - at > Available() && !failed
      modifies this, buf, sock
      ensures Valid() && k <= hi - at
      ensures Out() == old(Out()) + src[at..at + k] && old(sock.wire) <= sock.wire
      ensures sock.writes == old(sock.writes) + 1
      ensures !failed ==> n == 0 && (old(n) == 0 ==> k == hi - at)
    {
      if n == 0 {
        var written;
        k, written := sock.Write(src, at, hi);
        failed := !written;
      } else {
        k := Available();
        Copy(src, at, k);
        var _ := Flush();
      }
    }

    lemma Onwards(out: seq<byte>, a: seq<byte>, b: seq<byte>, c: seq<byte>)
      requires a + b == c
      ensures (out + a) + b == out + c
    {}

    /** Rounds of it, until the rest fits or the socket has failed. */
    method WriteRounds(src: array<byte>, lo: nat, hi: nat) returns (at: nat)
      requires Valid() && lo <= hi <= src.Length && src != buf
      requires !failed && hi - lo > Available()
      modifies this, buf, sock
      ensures Valid() && lo <= at <= hi && (failed || hi - at <= Available())
      ensures Out() == old(Out()) + src[lo..at] && old(sock.wire) <= sock.wire
      ensures !failed ==> n == 0 && sock.writes + (if at < hi then 1 else 0) <= old(sock.writes) + 2
    {
      hide Out;
      ghost var out := Out();
      at := lo;
      while hi - at > Available() && !failed
        invariant Valid() && lo <= at <= hi
        invariant Out() == out + src[lo..at] && old(sock.wire) <= sock.wire
        invariant failed || (at == lo && n == old(n) && sock.writes == old(sock.writes))
                  || (n == 0 && sock.writes == old(sock.writes) + 1)
                  || (n == 0 && at == hi && sock.writes <= old(sock.writes) + 2)
        decreases !failed, hi - at, n
      {
        var k := WriteSome(src, at, hi);
        Onwards(out, src[lo..at], src[at..at + k], src[lo..at + k]);
        at := at + k;
      }
    }

    method WriteLarge(src: array<byte>, lo: nat, hi: nat) returns (nn: nat, ok: bool)
      requires Valid() && lo <= hi <= src.Length && src != buf
      requires !failed && hi - lo > Available()
      modifies this, buf, sock
      ensures Valid() && nn <= hi - lo && ok == !failed && (ok ==> nn == hi - lo)
      ensures Out() == old(Out()) + src[lo..lo + nn] && old(sock.wire) <= sock.wire
      ensures ok ==> sock.writes + (if n > 0 then 1 else 0) <= old(sock.writes) + 2
    {
      hide Out;
      ghost var out := Out();
      var at := WriteRounds(src, lo, hi);
      if failed {
        return at - lo, false;
      }
      Copy(src, at, hi - at);
      Onwards(out, src[lo..at], src[at..hi], src[lo..hi]);
      assert lo + (hi - lo) == hi;
      return hi - lo, true;
    }

    /**
     Writes src[lo..hi]: what fits waits in the buffer, and a large write with nothing waiting goes
     straight to the socket. src may be the writer's own free space, as AvailableBuffer hands it out.
     */
    method Write(src: array<byte>, lo: nat, hi: nat) returns (nn: nat, ok: bool)
      requires Valid() && lo <= hi <= src.Length
      requires src == buf ==> lo == n
      modifies this, buf, sock
      ensures Valid() && nn <= hi - lo && ok == !failed && (ok ==> nn == hi - lo)
      ensures Out() == old(Out()) + old(src[lo..lo + nn]) && old(sock.wire) <= sock.wire
      ensures old(failed) ==> failed && nn == 0 && sock.wire == old(sock.wire) && sock.writes == old(sock.writes)
      ensures !old(failed) && hi - lo <= old(Available()) ==>
                ok && n == old(n) + (hi - lo) && sock.wire == old(sock.wire) && sock.writes == old(sock.writes)
      ensures ok ==> sock.writes + (if n > 0 then 1 else 0) <= old(sock.writes) + 2
    {
      if failed {
        return 0, false;
      }
      if hi - lo <= Available() {
        Copy(src, lo, hi - lo);
        return hi - lo, true;
      }
      nn, ok := WriteLarge(src, lo, hi);
    }
  }
}
