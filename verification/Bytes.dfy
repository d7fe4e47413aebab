/** Bytes, little-endian integers and the growable buffer every encoder writes into. */
module Bytes {
  type byte = x: int | 0 <= x < 0x100

  // ---------------------------------------------------------------------------
  // Little-endian integers
  // ---------------------------------------------------------------------------

  function U16(n: nat): (r: seq<byte>)
    requires n < 0x1_0000
    ensures |r| == 2
  {
    [n % 0x100, n / 0x100]
  }

  function U32(n: nat): (r: seq<byte>)
    requires n < 0x1_0000_0000
    ensures |r| == 4
  {
    [n % 0x100, n / 0x100 % 0x100, n / 0x1_0000 % 0x100, n / 0x100_0000]
  }

  function GetU16(b: seq<byte>): (n: nat)
    requires |b| >= 2
    ensures n < 0x1_0000
  {
    b[0] as int + 0x100 * (b[1] as int)
  }

  function GetU32(b: seq<byte>): (n: nat)
    requires |b| >= 4
    ensures n < 0x1_0000_0000
  {
    b[0] as int + 0x100 * (b[1] as int) + 0x1_0000 * (b[2] as int) + 0x100_0000 * (b[3] as int)
  }

  lemma U16RoundTrip(n: nat, rest: seq<byte>)
    requires n < 0x1_0000
    ensures GetU16(U16(n) + rest) == n && (U16(n) + rest)[2..] == rest
  {
  }

  lemma U32RoundTrip(n: nat, rest: seq<byte>)
    requires n < 0x1_0000_0000
    ensures GetU32(U32(n) + rest) == n && (U32(n) + rest)[4..] == rest
  {
    var b := U32(n) + rest;
    assert b[0] == n % 0x100 && b[1] == n / 0x100 % 0x100 && b[2] == n / 0x1_0000 % 0x100 && b[3] == n / 0x100_0000;
    assert n / 0x1_0000 == n / 0x100 / 0x100 && n / 0x100_0000 == n / 0x1_0000 / 0x100;
  }

  // ---------------------------------------------------------------------------
  // The growable buffer
  // ---------------------------------------------------------------------------

  class Writer {
    var buf: array<byte>
    var pos: nat

    ghost predicate Valid()
      reads this
    {
      0 < buf.Length && pos <= buf.Length
    }

    /** The bytes written so far. */
    ghost function Written(): seq<byte>
      reads this, buf
      requires Valid()
    {
      buf[..pos]
    }

    constructor (capacity: nat)
      requires capacity > 0
      ensures Valid() && fresh(buf) && pos == 0 && buf.Length == capacity
    {
      buf := new byte[capacity](_ => 0);
      pos := 0;
    }

    /** Room for `n` more bytes, doubling the buffer as often as it takes. */
    method Ensure(n: nat)
      requires Valid()
      modifies this
      ensures Valid() && pos == old(pos) && pos + n <= buf.Length
      ensures buf == old(buf) || fresh(buf)
      ensures buf[..pos] == old(buf[..pos])
    {
      if pos + n <= buf.Length {
        return;
      }
      var size := buf.Length * 2;
      while size < pos + n
        invariant size >= buf.Length * 2
        decreases pos + n - size
      {
        size := size * 2;
      }
      var next := new byte[size](_ => 0);
      var i := 0;
      while i < pos
        invariant 0 <= i <= pos && pos == old(pos) && buf == old(buf) && buf[..] == old(buf[..])
        invariant next[..i] == buf[..i]
      {
        next[i] := buf[i];
        i := i + 1;
      }
      buf := next;
    }

    /** Overwrites bytes in place, leaving every other one alone. */
    method Poke(at: nat, b: seq<byte>)
      requires Valid() && at + |b| <= buf.Length
      modifies buf
      ensures buf[at..at + |b|] == b
      ensures forall k :: 0 <= k < buf.Length && !(at <= k < at + |b|) ==> buf[k] == old(buf[k])
    {
      var i := 0;
      while i < |b|
        invariant 0 <= i <= |b|
        invariant forall k :: 0 <= k < i ==> buf[at + k] == b[k]
        invariant forall k :: 0 <= k < buf.Length && !(at <= k < at + i) ==> buf[k] == old(buf[k])
      {
        buf[at + i] := b[i];
        i := i + 1;
      }
    }

    /** Fills in bytes that were left for later. */
    method Patch(at: nat, b: seq<byte>)
      requires Valid() && at + |b| <= pos
      modifies buf
      ensures Written() == old(Written())[..at] + b + old(Written())[at + |b|..]
    {
      Poke(at, b);
      assert buf[..pos] == buf[..at] + buf[at..at + |b|] + buf[at + |b|..pos];
    }

    /** Appends bytes. */
    method Write(b: seq<byte>)
      requires Valid()
      modifies this, buf
      ensures Valid() && (buf == old(buf) || fresh(buf))
      ensures pos == old(pos) + |b| && Written() == old(Written()) + b
    {
      Ensure(|b|);
      Poke(pos, b);
      assert buf[..pos + |b|] == buf[..pos] + buf[pos..pos + |b|];
      assert buf[..pos] == old(buf[..pos]);
      pos := pos + |b|;
    }
  }
}
