/** Reading from a connection: `SocketStream::read` with its buffer, and the line reader with its two buffers on top of
    it. */
module Streams {
  const READ_BUFF_SIZE: nat := 4096

  method MemCpy(dest: array<char>, src: array<char>, from: nat, n: nat)
    requires n <= dest.Length && from + n <= src.Length && dest != src
    modifies dest
    ensures dest[..n] == src[from..from + n]
  {
    forall i | 0 <= i < n {
      dest[i] := src[from + i];
    }
  }

  /** The first bytes of what is held go to the caller, the others stay before what is to come. */
  lemma TakesAndHolds(done: string, held: string, n: nat, incoming: string)
    requires n <= |held|
    ensures (done + held[..n]) + held[n..] == done + held
    ensures (held + incoming)[..n] == held[..n] && (held + incoming)[n..] == held[n..] + incoming
  {
    assert held == held[..n] + held[n..];
  }

  lemma Takes(taken: string, incoming: string, n: nat)
    requires n <= |incoming|
    ensures (taken + incoming[..n]) + incoming[n..] == taken + incoming
    ensures incoming[..n] + incoming[n..] == incoming
  {
  }

  class SocketStream {
    /** A reliable connection gives bytes until the peer has closed it. On others a read can also fail. */
    const reliable: bool

    /** All the peer sends, and what of it is not yet taken from the socket. */
    ghost const sent: string
    var incoming: string

    const readBuff: array<char>
    var readBuffOff: nat
    var readBuffContentSize: nat

    /** All bytes taken from the socket, and all bytes handed to callers of Read. */
    ghost var taken: string
    ghost var delivered: string

    ghost predicate Valid()
      reads this, readBuff
    {
      && readBuff.Length == READ_BUFF_SIZE
      && readBuffOff <= readBuffContentSize <= READ_BUFF_SIZE
      && delivered + readBuff[readBuffOff..readBuffContentSize] == taken
      && taken + incoming == sent
    }

    /** What is still to be read. */
    ghost function Pending(): string
      requires Valid()
      reads this, readBuff
    {
      readBuff[readBuffOff..readBuffContentSize] + incoming
    }

    constructor (reliable: bool, sent: string)
      ensures Valid() && fresh(readBuff)
      ensures this.reliable == reliable && this.sent == sent && Pending() == sent && delivered == ""
    {
      this.reliable, this.sent := reliable, sent;
      readBuff := new char[READ_BUFF_SIZE](_ => '\0');
      readBuffOff, readBuffContentSize := 0, 0;
      incoming, taken, delivered := sent, "", "";
    }

    /** However the bytes were cut up, what was delivered and what is pending make up what was sent. */
    lemma Conserves()
      requires Valid()
      ensures delivered + Pending() == sent
    {
    }

    /** `read_socket`: some of the bytes there are, at least one if there is one. */
    method ReadSocket(ptr: array<char>, size: nat) returns (n: int)
      requires size <= ptr.Length
      modifies `incoming, ptr
      ensures n < 0 ==> !reliable && incoming == old(incoming)
      ensures n >= 0 ==>
                && n <= size && n <= |old(incoming)| && (n == 0 ==> size == 0 || old(incoming) == "")
                && ptr[..n] == old(incoming)[..n] && incoming == old(incoming)[n..]
    {
      var fails: bool := *;
      if fails && !reliable { return -1; }
      if size == 0 || incoming == "" { return 0; }
      n :| 0 < n <= size && n <= |incoming|;
      forall i | 0 <= i < n {
        ptr[i] := incoming[i];
      }
      incoming := incoming[n..];
    }

    /** The bytes that are held in the buffer go first. */
    method ReadHeld(ptr: array<char>, size: nat) returns (n: nat)
      requires Valid() && size <= ptr.Length && ptr != readBuff && readBuffOff < readBuffContentSize
      modifies `readBuffOff, `delivered, ptr
      ensures Valid() && n <= size && (n == 0 ==> size == 0)
      ensures n <= |old(Pending())| && ptr[..n] == old(Pending())[..n] && Pending() == old(Pending())[n..]
      ensures delivered == old(delivered) + ptr[..n]
    {
      var remaining := readBuffContentSize - readBuffOff;
      n := if size <= remaining then size else remaining;
      ghost var held, before := readBuff[readBuffOff..readBuffContentSize], delivered;
      MemCpy(ptr, readBuff, readBuffOff, n);
      readBuffOff, delivered := readBuffOff + n, delivered + ptr[..n];
      assert ptr[..n] == held[..n] && readBuff[readBuffOff..readBuffContentSize] == held[n..];
      TakesAndHolds(before, held, n, incoming);
    }

    /** The buffer is empty and more than it could hold is asked for: the socket is read directly. */
    method ReadDirect(ptr: array<char>, size: nat) returns (n: int)
      requires Valid() && size <= ptr.Length && ptr != readBuff && readBuffOff == readBuffContentSize
      modifies `incoming, `taken, `delivered, ptr
      ensures Valid()
      ensures n < 0 ==> !reliable && Pending() == old(Pending()) && delivered == old(delivered)
      ensures n >= 0 ==>
                && n <= size && n <= |old(Pending())| && (n == 0 ==> size == 0 || old(Pending()) == "")
                && ptr[..n] == old(Pending())[..n] && Pending() == old(Pending())[n..]
                && delivered == old(delivered) + ptr[..n]
    {
      ghost var before := incoming;
      NothingHeld();
      n := ReadSocket(ptr, size);
      if n >= 0 {
        Takes(taken, before, n);
        taken, delivered := taken + before[..n], delivered + before[..n];
      }
      NothingHeld();
    }

    lemma NothingHeld()
      requires readBuffOff == readBuffContentSize <= readBuff.Length
      ensures readBuff[readBuffOff..readBuffContentSize] == ""
      ensures Valid() ==> Pending() == incoming && delivered == taken
    {
    }

    /** The buffer is empty and is filled from the socket. */
    method ReadFill(ptr: array<char>, size: nat) returns (n: int)
      requires Valid() && size <= ptr.Length && ptr != readBuff && readBuffOff == readBuffContentSize
      modifies this, readBuff, ptr
      ensures Valid()
      ensures n < 0 ==> !reliable && Pending() == old(Pending()) && delivered == old(delivered)
      ensures n >= 0 ==>
                && n <= size && n <= |old(Pending())| && (n == 0 ==> size == 0 || old(Pending()) == "")
                && ptr[..n] == old(Pending())[..n] && Pending() == old(Pending())[n..]
                && delivered == old(delivered) + ptr[..n]
    {
      ghost var before, done := incoming, taken;
      NothingHeld();
      readBuffOff, readBuffContentSize := 0, 0;
      NothingHeld();
      n := ReadSocket(readBuff, READ_BUFF_SIZE);
      if n <= 0 { return; }
      Takes(taken, before, n);
      taken := taken + before[..n];
      n := HandOut(ptr, size, n, before[..n], done);
    }

    /** A filled buffer goes to the caller, the rest is held. */
    method HandOut(ptr: array<char>, size: nat, filled: nat, ghost got: string, ghost done: string) returns (n: nat)
      requires size <= ptr.Length && ptr != readBuff && readBuff.Length == READ_BUFF_SIZE && filled <= READ_BUFF_SIZE
      requires readBuff[..filled] == got && taken == done + got && delivered == done && taken + incoming == sent
      requires readBuffOff == readBuffContentSize == 0 < filled
      modifies `readBuffOff, `readBuffContentSize, `delivered, ptr
      ensures Valid() && n == (if filled <= size then filled else size)
      ensures ptr[..n] == (got + incoming)[..n] && Pending() == (got + incoming)[n..]
      ensures delivered == done + ptr[..n]
    {
      if filled <= size {
        n := filled;
        MemCpy(ptr, readBuff, 0, n);
      } else {
        n := size;
        MemCpy(ptr, readBuff, 0, n);
        readBuffOff, readBuffContentSize := n, filled;
      }
      delivered := delivered + ptr[..n];
      assert ptr[..n] == got[..n] && readBuff[readBuffOff..readBuffContentSize] == got[n..];
      TakesAndHolds(done, got, n, incoming);
    }

    /** `SocketStream::read` */
    method Read(ptr: array<char>, size: nat) returns (n: int)
      requires Valid() && size <= ptr.Length && ptr != readBuff
      modifies this, readBuff, ptr
      ensures Valid()
      ensures n < 0 ==> !reliable && Pending() == old(Pending()) && delivered == old(delivered)
      ensures n >= 0 ==>
                && n <= size && n <= |old(Pending())| && (n == 0 ==> size == 0 || old(Pending()) == "")
                && ptr[..n] == old(Pending())[..n] && Pending() == old(Pending())[n..]
                && delivered == old(delivered) + ptr[..n]
    {
      if readBuffOff < readBuffContentSize {
        n := ReadHeld(ptr, size);
        return;
      }
      var readable: bool := *;
      if !readable && !reliable { return -1; }
      if size < READ_BUFF_SIZE {
        n := ReadFill(ptr, size);
      } else {
        n := ReadDirect(ptr, size);
      }
    }
  }

  // ----- Lines -----

  /** The length of the first line, with its newline if it has one. */
  function LineLength(s: string): (n: nat)
    ensures n <= |s| && (n == 0 <==> s == "")
  {
    if s == "" then 0 else if s[0] == '\n' then 1 else 1 + LineLength(s[1..])
  }

  function LineOf(s: string): string { s[..LineLength(s)] }
  function AfterLine(s: string): string { s[LineLength(s)..] }

  lemma {:induction false} LineIs(x: string, rest: string)
    requires '\n' !in x
    ensures LineLength(x + "\n" + rest) == |x| + 1 && LineLength(x) == |x|
    ensures LineOf(x + "\n" + rest) == x + "\n" && AfterLine(x + "\n" + rest) == rest
  {
    var s := x + "\n" + rest;
    if x != "" {
      LineIs(x[1..], rest);
      assert s[1..] == x[1..] + "\n" + rest;
    }
    assert s[..|x| + 1] == x + "\n" && s[|x| + 1..] == rest;
  }

  /** `stream_line_reader`: a fixed buffer, and a growing one for lines that do not fit. */
  class StreamLineReader {
    const strm: SocketStream
    const fixedBuffer: array<char>
    var fixedBufferUsedSize: nat
    var glowableBuffer: string

    ghost predicate Valid()
      reads this, fixedBuffer, strm, strm.readBuff
    {
      && strm.Valid() && fixedBuffer != strm.readBuff && 2 <= fixedBuffer.Length
      && fixedBufferUsedSize < fixedBuffer.Length
      && (glowableBuffer != "" ==> fixedBufferUsedSize == fixedBuffer.Length - 1)
      && (fixedBufferUsedSize > 0 ==> fixedBuffer[fixedBufferUsedSize] == '\0')
    }

    /** `ptr()` and `size()` */
    function Line(): string
      requires fixedBufferUsedSize <= fixedBuffer.Length
      reads this, fixedBuffer
    {
      if glowableBuffer == "" then fixedBuffer[..fixedBufferUsedSize] else glowableBuffer
    }

    constructor (strm: SocketStream, size: nat)
      requires strm.Valid() && 2 <= size
      ensures Valid() && this.strm == strm && fresh(fixedBuffer)
    {
      this.strm := strm;
      fixedBuffer := new char[size](_ => '\0');
      fixedBufferUsedSize, glowableBuffer := 0, "";
    }

    method Append(c: char)
      requires Valid()
      modifies `fixedBufferUsedSize, `glowableBuffer, fixedBuffer
      ensures Valid() && Line() == old(Line()) + [c]
    {
      if fixedBufferUsedSize < fixedBuffer.Length - 1 {
        fixedBuffer[fixedBufferUsedSize] := c;
        fixedBufferUsedSize := fixedBufferUsedSize + 1;
        fixedBuffer[fixedBufferUsedSize] := '\0';
      } else {
        if glowableBuffer == "" {
          assert fixedBuffer[fixedBufferUsedSize] == '\0';
          glowableBuffer := fixedBuffer[..fixedBufferUsedSize];
        }
        glowableBuffer := glowableBuffer + [c];
      }
    }

    /** `strm_.read(&byte, 1)`, and the byte is appended. */
    method ReadByte() returns (n: int, c: char)
      requires Valid()
      modifies this, fixedBuffer, strm, strm.readBuff
      ensures Valid()
      ensures n < 0 ==> !strm.reliable
      ensures n == 0 ==> old(strm.Pending()) == "" && strm.Pending() == "" && Line() == old(Line())
      ensures n > 0 ==> Line() == old(Line()) + [c] && old(strm.Pending()) == [c] + strm.Pending()
    {
      var byte := new char[1];
      n := strm.Read(byte, 1);
      c := byte[0];
      if n > 0 {
        assert byte[..1] == [c];
        Append(c);
      }
    }

    /** The line is exactly the bytes through the first newline, or all there are, whichever buffer holds it. */
    method GetLine() returns (ok: bool)
      requires Valid()
      modifies this, fixedBuffer, strm, strm.readBuff
      ensures Valid()
      ensures ok ==>
                && old(strm.Pending()) != ""
                && Line() == LineOf(old(strm.Pending())) && strm.Pending() == AfterLine(old(strm.Pending()))
      ensures !ok && strm.reliable ==> old(strm.Pending()) == "" && strm.Pending() == ""
    {
      fixedBufferUsedSize, glowableBuffer := 0, "";
      ghost var all := strm.Pending();
      var i := 0;
      while true
        invariant Valid() && i == |Line()|
        invariant Line() + strm.Pending() == all && '\n' !in Line()
        decreases |strm.Pending()|
      {
        ghost var x := Line();
        var n, c := ReadByte();
        if n < 0 { return false; }
        if n == 0 {
          LineEndsAtEnd(x, all);
          return i != 0;
        }
        LineGrows(x, c, strm.Pending(), all);
        if c == '\n' { return true; }
        i := i + 1;
      }
    }
  }

  lemma LineEndsAtEnd(x: string, all: string)
    requires '\n' !in x && x + "" == all
    ensures x == all && LineOf(all) == x && AfterLine(all) == ""
  {
    LineIs(x, "");
  }

  lemma LineGrows(x: string, c: char, rest: string, all: string)
    requires '\n' !in x && x + ([c] + rest) == all
    ensures (x + [c]) + rest == all && all != ""
    ensures c == '\n' ==> LineOf(all) == x + [c] && AfterLine(all) == rest
  {
    LineIs(x, rest);
    assert c == '\n' ==> x + "\n" + rest == all;
  }
}
