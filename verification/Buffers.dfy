// lib/buffer.c and the buffer code of lib/socket.c and clientlib/command.c: a growable
// byte array whose unsent part is data[start..end].
module Buffers {
  import opened Basics

  const OUT_BUFFER_DEFAULT_SIZE := 8192
  const MSG_LIMIT := 32768

  class ImBuffer {
    var data: array<byte>
    var capacity: nat
    var start: nat
    var end: nat
    // Every byte ever put in, and every byte ever taken out, in order.
    ghost var appended: seq<byte>
    ghost var drained: seq<byte>

    ghost predicate Valid()
      reads this, data
    {
      && 0 < capacity == data.Length
      && start <= end <= capacity
      && appended == drained + data[start..end]
    }

    ghost function Pending(): seq<byte>
      requires Valid()
      reads this, data
    {
      data[start..end]
    }

    constructor (size: nat)
      requires 0 < size
      ensures Valid() && fresh(data)
      ensures appended == drained == Pending() == []
      ensures capacity == size
    {
      data := new byte[size];
      capacity, start, end := size, 0, 0;
      appended, drained := [], [];
    }

    // The copy is a memcpy; it is written out byte by byte because source and
    // destination may share bytes, which `overlapped` reports.
    method ResetStart() returns (ghost overlapped: bool)
      requires Valid()
      modifies this, data
      ensures Valid() && data == old(data) && capacity == old(capacity)
      ensures start == 0 && Pending() == old(Pending())
      ensures appended == old(appended) && drained == old(drained)
      ensures overlapped <==> 0 < old(start) < old(end - start)
    {
      overlapped := 0 < start < end - start;
      if start == 0 { return; }
      var i := 0;
      while i < end - start
        invariant i <= end - start
        invariant unchanged(this) && data.Length == capacity
        invariant data[..i] == old(data[start..start + i])
        invariant data[i..] == old(data[i..])
      {
        assert data[start + i] == data[i..][start];
        data[i] := data[start + i];
        i := i + 1;
      }
      end := end - start;
      start := 0;
    }

    method Realloc(size: nat)
      requires data.Length <= size
      modifies this`data
      ensures fresh(data) && data.Length == size
      ensures data[..old(data.Length)] == old(data[..])
    {
      var bigger := new byte[size];
      forall i | 0 <= i < data.Length {
        bigger[i] := data[i];
      }
      data := bigger;
    }

    // send_response and send_request: compact, double until the bytes fit, copy them in.
    method Append(bytes: seq<byte>)
      requires Valid()
      modifies this, data
      ensures Valid() && (data == old(data) || fresh(data))
      ensures Pending() == old(Pending()) + bytes
      ensures appended == old(appended) + bytes && drained == old(drained)
      ensures end < capacity
      ensures old(capacity) <= capacity
      ensures capacity == old(capacity) || capacity <= 2 * (|old(Pending())| + |bytes|)
    {
      if end + |bytes| >= capacity {
        ghost var _ := ResetStart();
        if end + |bytes| >= capacity {
          label grow:
          while end + |bytes| >= capacity
            invariant old@grow(capacity) <= capacity
            invariant unchanged@grow(`data, `start, `end, `appended, `drained)
            invariant unchanged@grow(data)
            invariant capacity == old@grow(capacity) || capacity <= 2 * (end + |bytes|)
            decreases end + |bytes| - capacity
          {
            capacity := capacity * 2;
          }
          Realloc(capacity);
          assert data[start..end] == data[..old@grow(data.Length)][start..end];
          assert data[start..end] == old@grow(Pending());
        }
      }
      CopyIn(bytes);
    }

    // memcpy at the end of the pending bytes.
    method CopyIn(bytes: seq<byte>)
      requires Valid() && end + |bytes| <= capacity
      modifies this`end, this`appended, data
      ensures Valid()
      ensures Pending() == old(Pending()) + bytes && end == old(end) + |bytes|
      ensures appended == old(appended) + bytes
    {
      ghost var before := data[start..end];
      forall i | 0 <= i < |bytes| {
        data[end + i] := bytes[i];
      }
      assert data[start..end] == before;
      assert data[end..end + |bytes|] == bytes;
      assert data[start..end + |bytes|] == data[start..end] + data[end..end + |bytes|];
      end := end + |bytes|;
      appended := appended + bytes;
    }

    // im_send_buffer: `nsent` is what send returned, -1 on error. The result says whether
    // the socket goes back to waiting for input only.
    method SendPending(nsent: int) returns (inputOnly: bool, ghost overlapped: bool)
      requires Valid()
      requires -1 <= nsent <= end - start
      modifies this, data
      ensures Valid() && data == old(data) && capacity == old(capacity)
      ensures appended == old(appended)
      ensures var k := if nsent == -1 then 0 else nsent;
        drained == old(drained) + old(Pending())[..k] && Pending() == old(Pending())[k..]
      ensures inputOnly <==> Pending() == []
      ensures !overlapped
      ensures start == old(start) || 2 * start < capacity
    {
      overlapped := false;
      inputOnly := false;
      var len := end - start;
      if len > 0 {
        if nsent == -1 { return; }
        ghost var all := data[start..end];
        drained := drained + all[..nsent];
        assert appended == drained + all[nsent..];
        start := start + nsent;
        len := len - nsent;
      }
      if len == 0 {
        inputOnly := true;
      }
      if 2 * start >= capacity {
        overlapped := ResetStart();
      }
    }

    // The room that im_receive_command makes before it calls recv.
    method MakeRoom() returns (room: nat)
      requires Valid()
      modifies this, data
      ensures Valid() && (data == old(data) || fresh(data))
      ensures Pending() == old(Pending()) && start == 0
      ensures appended == old(appended) && drained == old(drained)
      ensures room == capacity - end && 0 < capacity <= 2 * room
    {
      ghost var _ := ResetStart();
      if 2 * end > capacity {
        capacity := capacity * 2;
        label grow:
        Realloc(capacity);
        assert data[start..end] == data[..old@grow(data.Length)][start..end];
      }
      room := capacity - end;
    }

    // The handler has consumed the first n pending bytes.
    method Consume(n: nat)
      requires Valid() && n <= end - start
      modifies this`start, this`drained
      ensures Valid()
      ensures Pending() == old(Pending())[n..] && drained == old(drained) + old(Pending())[..n]
    {
      ghost var all := data[start..end];
      start := start + n;
      drained := drained + all[..n];
      assert all == all[..n] + all[n..];
    }
  }
}
