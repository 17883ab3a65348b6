/** Byte transfer over descriptors that may be interrupted, fail or move fewer bytes than
    asked for. */
module Transfer {
  import opened PamTypes

  /** The outcome of one read or write call. */
  datatype Event = Interrupted | Failed | Moves(atMost: nat)

  /** A stream: what has been written and not yet read. Calls beyond the script move
      everything they are asked to. */
  class Stream {
    var script: seq<Event>
    var data: string

    constructor (script: seq<Event>, data: string)
      ensures this.script == script && this.data == data
    {
      this.script, this.data := script, data;
    }

    method NextEvent(count: nat) returns (e: Event)
      modifies `script
      ensures old(script) == [] ==> e == Moves(count) && script == []
      ensures old(script) != [] ==> e == old(script)[0] && script == old(script)[1..]
    {
      if script == [] { return Moves(count); }
      e := script[0];
      script := script[1..];
    }

    /** `read`: 0 bytes only at the end of the stream. */
    method Read(count: nat) returns (n: int, interrupted: bool, bytes: string)
      requires count > 0
      modifies this
      ensures n < 0 ==> data == old(data) && old(script) != [] && script == old(script)[1..]
      ensures n < 0 && !interrupted ==> old(script)[0] == Failed
      ensures n < 0 && interrupted ==> old(script)[0] == Interrupted
      ensures n >= 0 ==>
        && (script == old(script) || (old(script) != [] && script == old(script)[1..]))
        && n == |bytes| <= count && old(data) == bytes + data && (n == 0 <==> old(data) == "")
    {
      var e := NextEvent(count);
      match e
      case Interrupted => return -1, true, "";
      case Failed => return -1, false, "";
      case Moves(atMost) =>
        var k := if atMost == 0 then 1 else if atMost < count then atMost else count;
        if k > |data| { k := |data|; }
        bytes := data[..k];
        data := data[k..];
        return k, false, bytes;
    }

    /** `write`. */
    method Write(bytes: string) returns (n: int, interrupted: bool)
      requires bytes != ""
      modifies this
      ensures n < 0 ==> data == old(data) && old(script) != [] && script == old(script)[1..]
      ensures n < 0 && !interrupted ==> old(script)[0] == Failed
      ensures n < 0 && interrupted ==> old(script)[0] == Interrupted
      ensures n >= 0 ==>
        && (script == old(script) || (old(script) != [] && script == old(script)[1..]))
        && n <= |bytes| && data == old(data) + bytes[..n]
        && (n == 0 ==> old(script) != [] && old(script)[0] == Moves(0))
    {
      var e := NextEvent(|bytes|);
      match e
      case Interrupted => return -1, true;
      case Failed => return -1, false;
      case Moves(atMost) =>
        var k := if atMost < |bytes| then atMost else |bytes|;
        data := data + bytes[..k];
        return k, false;
    }
  }

  function Min(a: int, b: int): int {
    if a < b then a else b
  }

  /** `pam_modutil_read`: however the transfer is cut up, a call that does not fail moves
      exactly what was asked for, or all there is. */
  method ReadAll(fd: Stream, buffer: array<char>, count: int) returns (ret: int)
    requires count <= buffer.Length
    modifies fd, buffer
    ensures Failed !in old(fd.script) ==> ret >= 0
    ensures ret >= 0 ==>
      && ret == (if count <= 0 then 0 else Min(count, |old(fd.data)|))
      && buffer[..ret] == old(fd.data)[..ret] && fd.data == old(fd.data)[ret..]
    ensures ret < 0 ==> exists k :: 0 <= k <= |old(fd.data)| && fd.data == old(fd.data)[k..]
    ensures forall i :: count <= i < buffer.Length && i >= 0 ==> buffer[i] == old(buffer[i])
    ensures forall e :: e in fd.script ==> e in old(fd.script)
  {
    var offset, left := 0, count;
    while left > 0
      invariant 0 <= offset <= |old(fd.data)| && (left == count - offset) && (left >= 0 || offset == 0)
      invariant buffer[..offset] == old(fd.data)[..offset] && fd.data == old(fd.data)[offset..]
      invariant forall i :: count <= i < buffer.Length && i >= 0 ==> buffer[i] == old(buffer[i])
      invariant forall e :: e in fd.script ==> e in old(fd.script)
      decreases left, |fd.script|
    {
      var n, interrupted, bytes := fd.Read(left);
      if n < 0 {
        if interrupted { continue; }
        return n;
      }
      if n == 0 { return offset; }
      forall i | 0 <= i < n { buffer[offset + i] := bytes[i]; }
      offset, left := offset + n, left - n;
    }
    return offset;
  }

  /** `pam_modutil_write`. */
  method WriteAll(fd: Stream, buffer: array<char>, count: int) returns (ret: int)
    requires count <= buffer.Length
    modifies fd
    ensures Failed !in old(fd.script) && Moves(0) !in old(fd.script) ==> ret == if count <= 0 then 0 else count
    ensures ret >= 0 ==> ret <= (if count <= 0 then 0 else count) && fd.data == old(fd.data) + buffer[..ret]
    ensures ret < 0 ==> exists k :: 0 <= k <= buffer.Length && fd.data == old(fd.data) + buffer[..k]
    ensures forall e :: e in fd.script ==> e in old(fd.script)
  {
    var offset, left := 0, count;
    while left > 0
      invariant 0 <= offset <= buffer.Length && left == count - offset && (left >= 0 || offset == 0)
      invariant fd.data == old(fd.data) + buffer[..offset]
      invariant forall e :: e in fd.script ==> e in old(fd.script)
      decreases left, |fd.script|
    {
      var n, interrupted := fd.Write(buffer[offset..offset + left]);
      if n < 0 {
        assert fd.data == old(fd.data) + buffer[..offset];
        if interrupted { continue; }
        return n;
      }
      if n == 0 { return offset; }
      assert buffer[..offset + n] == buffer[..offset] + buffer[offset..offset + left][..n];
      offset, left := offset + n, left - n;
    }
    return offset;
  }

  /** What is written through a stream is read back, for every way of cutting up either
      transfer and any number of interruptions. */
  method WriteThenRead(fd: Stream, source: array<char>, target: array<char>, count: nat)
    returns (sent: int, received: int)
    requires count <= source.Length && count <= target.Length && source != target
    requires fd.data == "" && Failed !in fd.script && Moves(0) !in fd.script
    modifies fd, target
    ensures sent == count && received == count && fd.data == ""
    ensures target[..count] == source[..count]
  {
    sent := WriteAll(fd, source, count);
    assert fd.data == source[..count];
    received := ReadAll(fd, target, count);
  }
}
