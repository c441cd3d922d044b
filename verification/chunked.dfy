/** The chunked writer of utils/libruseq/chunked-client.cpp: a 0x400-byte buffer in front of a socket that may take
    any part of what it is offered, and a parser for the chunked format (section 7.1 of RFC 9112) that undoes it. */
module Chunked {
  import opened Basics

  const CAPACITY := 0x400
  const CRLF := "\r\n"

  // ---------------------------------------------------------------------------------------
  // Chunk sizes
  // ---------------------------------------------------------------------------------------

  function HexDigit(d: nat): char
    requires d < 16
  {
    "0123456789ABCDEF"[d]
  }

  /** `sprintf( "%X", n )`. */
  function Hex(n: nat): (s: string)
    ensures s != []
  {
    if n < 16 then [HexDigit(n)] else Hex(n / 16) + [HexDigit(n % 16)]
  }

  function DigitValue(c: char): Option<nat> {
    if '0' <= c <= '9' then Some(c as nat - '0' as nat)
    else if 'A' <= c <= 'F' then Some(c as nat - 'A' as nat + 10)
    else if 'a' <= c <= 'f' then Some(c as nat - 'a' as nat + 10)
    else None
  }

  predicate IsUpperHex(c: char) {
    '0' <= c <= '9' || 'A' <= c <= 'F'
  }

  /** Number of leading hexadecimal digits. */
  function DigitsIn(s: string): (n: nat)
    ensures n <= |s|
    ensures forall i :: 0 <= i < n ==> DigitValue(s[i]).Some?
    ensures n < |s| ==> DigitValue(s[n]).None?
  {
    if s == [] || DigitValue(s[0]).None? then 0 else 1 + DigitsIn(s[1..])
  }

  function HexValue(s: string): nat
    requires forall i :: 0 <= i < |s| ==> DigitValue(s[i]).Some?
  {
    if s == [] then 0 else 16 * HexValue(s[..|s| - 1]) + DigitValue(s[|s| - 1]).value
  }

  lemma {:induction false} HexRoundTrip(n: nat)
    ensures forall i :: 0 <= i < |Hex(n)| ==> DigitValue(Hex(n)[i]).Some?
    ensures HexValue(Hex(n)) == n
    ensures forall i :: 0 <= i < |Hex(n)| ==> IsUpperHex(Hex(n)[i])
    ensures n > 0 ==> Hex(n)[0] != '0'
  {
    hide DigitValue, HexDigit, IsUpperHex;
    DigitRoundTrip(n % 16);
    if n >= 16 {
      HexRoundTrip(n / 16);
      assert Hex(n)[..|Hex(n)| - 1] == Hex(n / 16);
    } else {
      assert Hex(n)[..0] == [];
    }
  }

  lemma DigitRoundTrip(d: nat)
    requires d < 16
    ensures DigitValue(HexDigit(d)) == Some(d) && IsUpperHex(HexDigit(d)) && (d > 0 ==> HexDigit(d) != '0')
  {
  }

  lemma FullChunkHeader()
    ensures Hex(CAPACITY) + CRLF == "400\r\n"
  {
  }

  // ---------------------------------------------------------------------------------------
  // The format, and a parser for it
  // ---------------------------------------------------------------------------------------

  /** `chunk = chunk-size CRLF chunk-data CRLF`, without extensions. */
  function Chunk(data: string): string {
    Hex(|data|) + CRLF + data + CRLF
  }

  lemma FullChunk(data: string)
    requires |data| == CAPACITY
    ensures Chunk(data) == "400\r\n" + data + CRLF
  {
    FullChunkHeader();
  }

  /** A chunk is its size in hexadecimal digits, the data, and a line end behind each of them. */
  lemma ChunkShape(data: string)
    ensures exists digits :: Chunk(data) == digits + "\r\n" + data + "\r\n" && digits != []
                             && (forall i :: 0 <= i < |digits| ==> DigitValue(digits[i]).Some?)
                             && HexValue(digits) == |data|
  {
    hide DigitValue, HexValue;
    HexRoundTrip(|data|);
    assert Chunk(data) == Hex(|data|) + "\r\n" + data + "\r\n";
  }

  datatype Parsed = Parsed(data: string, rest: string)

  /** One complete chunk from the front of the wire, or nothing. */
  function ParseChunk(wire: string): (r: Option<Parsed>)
    ensures r.Some? ==> |r.value.rest| < |wire|
  {
    var n := DigitsIn(wire);
    if n == 0 then None
    else
      var size, body := HexValue(wire[..n]), wire[n..];
      if |body| < size + 4 || body[..2] != CRLF || body[size + 2..size + 4] != CRLF then None
      else Some(Parsed(body[2..size + 2], body[size + 4..]))
  }

  /** All complete chunks from the front of the wire. */
  function Parse(wire: string): Parsed
    decreases |wire|
  {
    match ParseChunk(wire)
    case None => Parsed("", wire)
    case Some(first) => var more := Parse(first.rest); Parsed(first.data + more.data, more.rest)
  }

  lemma {:induction false} DigitsPrefix(s: string, t: string)
    requires forall i :: 0 <= i < |s| ==> DigitValue(s[i]).Some?
    requires t != [] && DigitValue(t[0]).None?
    ensures DigitsIn(s + t) == |s|
  {
    if s == [] {
      assert s + t == t;
    } else {
      assert (s + t)[1..] == s[1..] + t;
      DigitsPrefix(s[1..], t);
    }
  }

  lemma ChunkParses(data: string, more: string)
    ensures ParseChunk(Chunk(data) + more) == Some(Parsed(data, more))
  {
    var wire, hex := Chunk(data) + more, Hex(|data|);
    var body := CRLF + data + CRLF + more;
    HexRoundTrip(|data|);
    assert wire == hex + body;
    DigitsPrefix(hex, body);
    assert wire[..|hex|] == hex && wire[|hex|..] == body;
    assert body[2..|data| + 2] == data;
  }

  lemma ParseStep(data: string, more: string)
    ensures Parse(Chunk(data) + more) == Parsed(data + Parse(more).data, Parse(more).rest)
  {
    hide ParseChunk, Chunk;
    ChunkParses(data, more);
  }

  // ---------------------------------------------------------------------------------------
  // What the writer puts on the wire
  // ---------------------------------------------------------------------------------------

  /** The full chunks of `data`. */
  function Wire(data: string): string
    decreases |data|
  {
    if |data| < CAPACITY then "" else Chunk(data[..CAPACITY]) + Wire(data[CAPACITY..])
  }

  /** What stays in the buffer. */
  function Tail(data: string): (t: string)
    ensures |t| < CAPACITY
    decreases |data|
  {
    if |data| < CAPACITY then data else Tail(data[CAPACITY..])
  }

  lemma {:induction false} WireGrows(data: string, more: string)
    requires |Tail(data) + more| < CAPACITY
    ensures Wire(data + more) == Wire(data) && Tail(data + more) == Tail(data) + more
    decreases |data|
  {
    if |data| >= CAPACITY {
      WireGrows(data[CAPACITY..], more);
      assert (data + more)[..CAPACITY] == data[..CAPACITY];
      assert (data + more)[CAPACITY..] == data[CAPACITY..] + more;
    }
  }

  lemma {:induction false} WireFills(data: string, more: string)
    requires |Tail(data) + more| == CAPACITY
    ensures Wire(data + more) == Wire(data) + Chunk(Tail(data) + more) && Tail(data + more) == ""
    decreases |data|
  {
    if |data| >= CAPACITY {
      WireFills(data[CAPACITY..], more);
      assert (data + more)[..CAPACITY] == data[..CAPACITY];
      assert (data + more)[CAPACITY..] == data[CAPACITY..] + more;
      assert Wire(data + more) == Chunk(data[..CAPACITY]) + (Wire(data[CAPACITY..]) + Chunk(Tail(data) + more));
    } else {
      assert (data + more)[..CAPACITY] == data + more;
      assert (data + more)[CAPACITY..] == "";
    }
  }

  /** Longer data has a longer wire. */
  lemma {:induction false} WireExtends(data: string, more: string)
    ensures Wire(data) <= Wire(data + more)
    decreases |data|
  {
    if |data| >= CAPACITY {
      WireExtends(data[CAPACITY..], more);
      assert (data + more)[..CAPACITY] == data[..CAPACITY];
      assert (data + more)[CAPACITY..] == data[CAPACITY..] + more;
    }
  }

  /** What has left the buffer. */
  function Head(data: string): string
    decreases |data|
  {
    if |data| < CAPACITY then "" else data[..CAPACITY] + Head(data[CAPACITY..])
  }

  lemma {:induction false} HeadAndTail(data: string)
    ensures Head(data) + Tail(data) == data
    decreases |data|
  {
    if |data| >= CAPACITY {
      HeadAndTail(data[CAPACITY..]);
      assert data == data[..CAPACITY] + data[CAPACITY..];
    }
  }

  /** The parser gets back everything that has left the buffer, and goes on behind it. */
  lemma {:induction false} WireParses(data: string, more: string)
    ensures Parse(Wire(data) + more) == Parsed(Head(data) + Parse(more).data, Parse(more).rest)
    decreases |data|
  {
    hide Parse, Chunk;
    if |data| < CAPACITY {
      assert Wire(data) + more == more;
      assert "" + Parse(more).data == Parse(more).data;
    } else {
      var first, later := data[..CAPACITY], data[CAPACITY..];
      WireParses(later, more);
      ParseStep(first, Wire(later) + more);
      assert Wire(data) + more == Chunk(first) + (Wire(later) + more);
      assert first + (Head(later) + Parse(more).data) == Head(data) + Parse(more).data;
    }
  }

  /** Before a flush: the wire and the buffer together hold exactly the data. */
  lemma WrittenIsRecovered(data: string)
    ensures Parse(Wire(data)).data + Tail(data) == data && Parse(Wire(data)).rest == ""
  {
    WireParses(data, "");
    HeadAndTail(data);
    assert Wire(data) + "" == Wire(data);
    assert Parse("") == Parsed("", "");
    assert Head(data) + "" == Head(data);
  }

  /** What a flush adds: the buffer as a chunk of its own, and one line end too many. */
  function Flush(tail: string): string {
    if tail == "" then "" else Chunk(tail) + CRLF
  }

  /** After a flush of a buffer that was not empty the parser has all the data, and stops at the extra line end,
      whatever is written behind it. */
  lemma FlushedIsRecovered(data: string, more: string)
    requires Tail(data) != ""
    ensures Parse(Wire(data) + Flush(Tail(data)) + more) == Parsed(data, CRLF + more)
  {
    hide Parse, Chunk, Wire, Tail, Head;
    var t, after := Tail(data), CRLF + more;
    assert Wire(data) + Flush(t) + more == Wire(data) + (Chunk(t) + after);
    LineEndStops(more);
    ParseStep(t, after);
    WireParses(data, Chunk(t) + after);
    HeadAndTail(data);
    assert t + "" == t;
  }

  lemma LineEndStops(more: string)
    ensures Parse(CRLF + more) == Parsed("", CRLF + more)
  {
  }

  // ---------------------------------------------------------------------------------------
  // The stream
  // ---------------------------------------------------------------------------------------

  class ChunkedStream {
    const buffer: array<char>
    var bufptr: nat
    var closed: bool
    var plan: seq<int>       // what the calls of `send` will return; an exhausted plan stands for an error
    var wire: string         // what the socket has taken so far
    ghost var base: string   // what the socket had taken at the last flush
    ghost var data: string   // everything that was written since then

    ghost predicate Valid()
      reads this, buffer
    {
      && buffer.Length == CAPACITY && bufptr < CAPACITY
      && wire == base + Wire(data) && buffer[..bufptr] == Tail(data)
    }

    constructor (plan: seq<int>)
      ensures Valid() && base == data == "" && !closed && fresh(buffer)
    {
      buffer := new char[CAPACITY];
      bufptr, closed, this.plan, wire, base, data := 0, false, plan, "", "", "";
    }

    /** The socket takes a part of what it is offered, possibly nothing, or fails. */
    method Send(offered: string) returns (n: int)
      modifies this`plan, this`wire
      ensures n <= |offered|
      ensures n < 0 ==> wire == old(wire)
      ensures n >= 0 ==> wire == old(wire) + offered[..n] && |plan| < |old(plan)|
    {
      if plan == [] || plan[0] < 0 {
        return -1;
      }
      n := Min(plan[0], |offered|);
      plan, wire := plan[1..], wire + offered[..n];
    }

    /** `put`: offers the rest again and again until all of it is taken. */
    method PutAll(bytes: string) returns (n: int)
      modifies this`plan, this`wire
      ensures n >= 0 ==> n == |bytes| && wire == old(wire) + bytes
      ensures n < 0 ==> exists k :: 0 <= k < |bytes| && wire == old(wire) + bytes[..k]
    {
      var ptr := 0;
      assert old(wire) + bytes[..0] == old(wire);
      while ptr != |bytes|
        invariant ptr <= |bytes| && wire == old(wire) + bytes[..ptr]
        decreases |plan|
      {
        var nwrite := Send(bytes[ptr..]);
        if nwrite >= 0 {
          assert bytes[..ptr] + bytes[ptr..][..nwrite] == bytes[..ptr + nwrite];
          ptr := ptr + nwrite;
        } else {
          return nwrite;
        }
      }
      assert bytes[..ptr] == bytes;
      n := |bytes|;
    }

    /** Sends the buffer as one chunk with the given header and end; closes the socket if that fails. */
    method SendBuffer(header: string, end: string) returns (ok: bool)
      requires buffer.Length == CAPACITY && bufptr <= CAPACITY && header != "" && end != ""
      modifies this`plan, this`wire, this`closed
      ensures ok ==> wire == old(wire) + header + buffer[..bufptr] + end && closed == old(closed)
      ensures !ok ==> closed && old(wire) <= wire && wire < old(wire) + header + buffer[..bufptr] + end
    {
      ok := false;
      var n := PutAll(header);
      if n < 0 {
        closed := true;
        return;
      }
      n := PutAll(buffer[..bufptr]);
      if n < 0 {
        closed := true;
        return;
      }
      n := PutAll(end);
      if n < 0 {
        closed := true;
        return;
      }
      ok := true;
    }

    /** The inner loop: copies what fits into the buffer. */
    method Fill(bytes: string, start: nat) returns (ptr: nat)
      requires buffer.Length == CAPACITY && bufptr < CAPACITY && start < |bytes|
      modifies this`bufptr, buffer
      ensures start < ptr <= |bytes| && bufptr <= CAPACITY && (ptr < |bytes| ==> bufptr == CAPACITY)
      ensures buffer[..bufptr] == old(buffer[..bufptr]) + bytes[start..ptr]
    {
      ptr := start;
      while ptr != |bytes| && bufptr != CAPACITY
        invariant start <= ptr <= |bytes| && bufptr == old(bufptr) + ptr - start <= CAPACITY
        invariant buffer[..bufptr] == old(buffer[..bufptr]) + bytes[start..ptr]
      {
        buffer[bufptr] := bytes[ptr];
        bufptr, ptr := bufptr + 1, ptr + 1;
      }
    }

    /** `Put`: buffers the bytes and sends every full buffer. */
    method Put(bytes: string) returns (n: int)
      requires Valid()
      modifies this, buffer
      ensures n == |bytes| || n == -1
      ensures n >= 0 ==> Valid() && data == old(data) + bytes && closed == old(closed)
      ensures n < 0 ==> closed && wire <= base + Wire(old(data) + bytes)
      ensures base == old(base) && old(wire) <= wire
    {
      hide Wire, Tail, Hex, Chunk;
      var ptr := 0;
      assert old(data) + bytes[..0] == old(data);
      while ptr != |bytes|
        invariant ptr <= |bytes| && closed == old(closed) && base == old(base) && old(wire) <= wire
        invariant Valid() && data == old(data) + bytes[..ptr]
        decreases |bytes| - ptr
      {
        ghost var start, tail := ptr, Tail(data);
        ptr := Fill(bytes, ptr);
        assert old(data) + bytes[..ptr] == data + bytes[start..ptr];
        if bufptr == CAPACITY {
          FullChunk(Tail(data) + bytes[start..ptr]);
          WireFills(data, bytes[start..ptr]);
          var ok := SendBuffer("400\r\n", CRLF);
          assert buffer[..bufptr] == tail + bytes[start..ptr];
          if !ok {
            ghost var all := old(data) + bytes;
            assert all == data + bytes[start..ptr] + bytes[ptr..];
            WireExtends(data + bytes[start..ptr], bytes[ptr..]);
            assert wire <= base + Wire(data + bytes[start..ptr]);
            return -1;
          }
          bufptr := 0;
        } else {
          WireGrows(data, bytes[start..ptr]);
        }
        data := data + bytes[start..ptr];
      }
      assert bytes[..ptr] == bytes;
      n := |bytes|;
    }

    /** The flush at the beginning of `Get`. */
    method FlushBuffer() returns (ok: bool)
      requires Valid()
      modifies this
      ensures ok ==> Valid() && Tail(data) == "" && closed == old(closed)
      ensures ok ==> wire == old(wire) + Flush(Tail(old(data)))
      ensures old(bufptr) == 0 ==> ok && wire == old(wire)
      ensures ok && old(base) == "" && Tail(old(data)) != "" ==> Parse(wire) == Parsed(old(data), CRLF)
      ensures !ok ==> closed && old(wire) <= wire && wire < old(wire) + Flush(Tail(old(data)))
    {
      hide Wire, Parse, Hex;
      ok := true;
      if bufptr != 0 {
        assert Flush(Tail(data)) == Hex(bufptr) + CRLF + buffer[..bufptr] + (CRLF + CRLF);
        ok := SendBuffer(Hex(bufptr) + CRLF, CRLF + CRLF);
        if ok {
          assert wire == old(wire) + Flush(Tail(data));
          FlushedIsRecovered(data, "");
          assert Wire(data) + Flush(Tail(data)) + "" == Wire(data) + Flush(Tail(data)) && CRLF + "" == CRLF;
          assert "" + Wire(data) == Wire(data);
          bufptr, base, data := 0, wire, "";
          EmptyWire();
        }
      }
    }
  }

  lemma EmptyWire()
    ensures Wire("") == Tail("") == ""
  {
  }

  /** However the data is split into writes, and whatever the socket takes at a time, the wire is the same. */
  method PutEach(stream: ChunkedStream, writes: seq<string>) returns (ok: bool)
    requires stream.Valid() && stream.base == stream.data == ""
    modifies stream, stream.buffer
    ensures ok ==> stream.wire == Wire(Concat(writes)) && stream.buffer.Length == CAPACITY && stream.bufptr <= CAPACITY
                   && stream.buffer[..stream.bufptr] == Tail(Concat(writes))
                   && Parse(stream.wire).data + stream.buffer[..stream.bufptr] == Concat(writes)
  {
    ok := true;
    for i := 0 to |writes|
      invariant stream.Valid() && stream.base == "" && stream.data == Concat(writes[..i])
    {
      var n := stream.Put(writes[i]);
      if n < 0 {
        return false;
      }
      assert writes[..i + 1][..i] == writes[..i];
    }
    assert writes[..|writes|] == writes;
    WrittenIsRecovered(stream.data);
  }

  function Concat(writes: seq<string>): string {
    if writes == [] then "" else Concat(writes[..|writes| - 1]) + writes[|writes| - 1]
  }
}
