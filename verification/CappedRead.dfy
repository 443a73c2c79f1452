/** Reading a response body under a cap: the download loop with its saturating counter, and the bounded
    read into memory. */
module CappedRead {
  import opened Options

  type Byte = b: int | 0 <= b < 256

  const U64_MAX: nat := 0xFFFF_FFFF_FFFF_FFFF
  const CHUNK_SIZE: nat := 0x1_0000

  function Min(a: nat, b: nat): nat {
    if a <= b then a else b
  }

  function SaturatingAdd(a: nat, b: nat): nat {
    Min(a + b, U64_MAX)
  }

  /** A body that arrives in pieces of any size; reading fails once `faultAt` bytes have been read. */
  class Stream {
    const data: seq<Byte>
    const faultAt: Option<nat>
    var pos: nat

    constructor (data: seq<Byte>, faultAt: Option<nat>)
      ensures this.data == data && this.faultAt == faultAt && pos == 0
    {
      this.data := data;
      this.faultAt := faultAt;
      pos := 0;
    }

    /** How many bytes there are before the end or the fault. */
    function Reach(): nat {
      if faultAt.Some? then Min(faultAt.value, |data|) else |data|
    }

    predicate Faulty() {
      faultAt.Some? && faultAt.value <= |data|
    }

    /** `read`: at least one byte unless at the end, at most `room`, into the front of the buffer. */
    method Read(buf: array<Byte>, room: nat) returns (n: Option<nat>)
      requires pos <= Reach() && 0 < room <= buf.Length
      modifies this, buf
      ensures n.None? <==> Faulty() && old(pos) == Reach()
      ensures n.None? ==> pos == old(pos)
      ensures n.Some? ==> pos == old(pos) + n.value <= Reach() && n.value <= room && buf[..n.value] == data[old(pos)..pos]
      ensures n == Some(0) ==> pos == |data|
    {
      if faultAt == Some(pos) {
        return None;
      }
      if pos == |data| {
        assert buf[..0] == data[pos..pos];
        return Some(0);
      }
      var k: nat :| 1 <= k <= room && k <= Reach() - pos;
      forall j | 0 <= j < k {
        buf[j] := data[pos + j];
      }
      pos := pos + k;
      assert buf[..k] == data[old(pos)..pos];
      return Some(k);
    }
  }

  datatype Outcome = Complete(body: seq<Byte>) | TooLarge | ReadFailed

  /** What a body means under a cap: a fault within the cap is a read error, anything longer than the cap
      is too large, all else is complete. */
  function Verdict(data: seq<Byte>, faultAt: Option<nat>, cap: nat): Outcome {
    if faultAt.Some? && faultAt.value <= Min(|data|, cap) then ReadFailed
    else if |data| > cap then TooLarge
    else Complete(data)
  }

  /** What the largest possible cap amounts to: no cap, but a body cut off there. */
  function Uncapped(data: seq<Byte>, faultAt: Option<nat>): Outcome {
    if faultAt.Some? && faultAt.value <= |data| && faultAt.value < U64_MAX then ReadFailed
    else Complete(data[..Min(|data|, U64_MAX)])
  }

  // ---------- In memory --------------------------------------------------------

  /** `read_body_capped`: at most one byte more than the cap is ever read. */
  method ReadBodyCapped(stream: Stream, cap: nat) returns (r: Outcome)
    requires stream.pos == 0 && cap <= U64_MAX
    modifies stream
    ensures stream.pos <= cap + 1
    ensures cap < U64_MAX ==> r == Verdict(stream.data, stream.faultAt, cap)
    ensures cap == U64_MAX ==> r == Uncapped(stream.data, stream.faultAt)
  {
    var limit := SaturatingAdd(cap, 1);
    var buf := new Byte[CHUNK_SIZE](_ => 0);
    var body: seq<Byte> := [];
    while |body| < limit
      invariant stream.pos == |body| <= Min(stream.Reach(), limit)
      invariant body == stream.data[..|body|]
      decreases limit - |body|
    {
      var n := stream.Read(buf, Min(CHUNK_SIZE, limit - |body|));
      if n.None? {
        return ReadFailed;
      }
      if n.value == 0 {
        break;
      }
      body := body + buf[..n.value];
    }
    assert |body| == |stream.data| ==> stream.data[..|body|] == stream.data;
    if |body| > cap {
      return TooLarge;
    }
    return Complete(body);
  }

  /** With the largest 64-bit number for a cap, the bounded read still gives the verdict exactly for the
      bodies no longer than that, and for those whose fault comes sooner. */
  lemma LargestCapIsNoCap(data: seq<Byte>, faultAt: Option<nat>)
    ensures Uncapped(data, faultAt) == Verdict(data, faultAt, U64_MAX) <==>
      (if faultAt.Some? && faultAt.value == U64_MAX <= |data| then false
       else |data| <= U64_MAX || (faultAt.Some? && faultAt.value < U64_MAX))
  {
    assert |data| <= U64_MAX ==> data[..|data|] == data;
  }

  // ---------- To a file ----------------------------------------------------------

  /** The destination; `history` holds every content it has had, None while it is not there. */
  class Destination {
    var content: Option<seq<Byte>>
    ghost var history: seq<Option<seq<Byte>>>
    ghost var faults: nat

    ghost predicate Valid()
      reads this
    {
      history != [] && history[|history| - 1] == content
    }

    constructor (content: Option<seq<Byte>>)
      ensures Valid() && this.content == content && history == [content] && faults == 0
    {
      this.content := content;
      history := [content];
      faults := 0;
    }

    method Put(next: Option<seq<Byte>>)
      modifies this
      ensures Valid() && content == next && history == old(history) + [next] && faults == old(faults)
    {
      content := next;
      history := history + [next];
    }

    method Fault() returns (failed: bool)
      modifies `faults
      ensures faults == old(faults) + if failed then 1 else 0
    {
      failed := *;
      if failed {
        faults := faults + 1;
      }
    }

    method Create() returns (ok: bool)
      requires Valid()
      modifies this
      ensures Valid() && faults >= old(faults) && (faults == old(faults) ==> ok)
      ensures ok ==> content == Some([]) && history == old(history) + [content]
      ensures !ok ==> content == old(content) && history == old(history)
    {
      var failed := Fault();
      if failed {
        return false;
      }
      Put(Some([]));
      return true;
    }

    /** `write_all`: perhaps only part of it gets there. */
    method WriteAll(bytes: seq<Byte>) returns (ok: bool)
      requires Valid() && content.Some?
      modifies this
      ensures Valid() && faults >= old(faults) && (faults == old(faults) ==> ok)
      ensures old(history) <= history && content.Some?
      ensures ok ==> content == Some(old(content).value + bytes)
      ensures forall i | |old(history)| <= i < |history| ::
        history[i].Some? && old(content).value <= history[i].value <= old(content).value + bytes
      ensures old(content).value <= content.value <= old(content).value + bytes
    {
      var before := content.value;
      var cut: nat :| cut <= |bytes|;
      assert before + bytes == before + bytes[..cut] + bytes[cut..];
      Put(Some(before + bytes[..cut]));
      var failed := Fault();
      if failed {
        return false;
      }
      Put(Some(before + bytes));
      return true;
    }

    method Unlink() returns (ok: bool)
      requires Valid()
      modifies this
      ensures Valid() && faults >= old(faults) && (faults == old(faults) ==> ok)
      ensures ok ==> content.None? && history == old(history) + [content]
      ensures !ok ==> content == old(content) && history == old(history)
    {
      var failed := Fault();
      if failed {
        return false;
      }
      Put(None);
      return true;
    }
  }

  datatype Download = Downloaded | CapExceeded(unlinked: bool) | BodyFailed | FileFailed

  /** A state the destination may have: absent, or a beginning of the body no longer than the cap; the
      largest cap is none. */
  predicate Bounded(content: Option<seq<Byte>>, data: seq<Byte>, cap: nat) {
    content.Some? ==> content.value <= data && (|content.value| <= cap || cap == U64_MAX)
  }

  /** The download loop. Whatever fails, the destination never holds more than the cap, nor anything but a
      beginning of the body; on overflow it is removed, if it can be. */
  method DownloadCapped(stream: Stream, dest: Destination, cap: nat) returns (r: Download)
    requires stream.pos == 0 && dest.Valid() && cap <= U64_MAX
    modifies stream, dest
    ensures dest.Valid() && dest.faults >= old(dest.faults) && old(dest.history) <= dest.history
    ensures forall i | |old(dest.history)| <= i < |dest.history| && dest.history[i].Some? ::
      dest.history[i].value <= stream.data && (|dest.history[i].value| <= cap || cap == U64_MAX)
    ensures r.Downloaded? ==> dest.content == Some(stream.data) && !stream.Faulty() && (|stream.data| <= cap || cap == U64_MAX)
    ensures r.CapExceeded? ==> (r.unlinked ==> dest.content.None?) && |stream.data| > cap
    ensures dest.faults == old(dest.faults) && cap < U64_MAX ==>
      r == match Verdict(stream.data, stream.faultAt, cap)
           case Complete(_) => Downloaded
           case TooLarge => CapExceeded(true)
           case ReadFailed => BodyFailed
  {
    var ok := dest.Create();
    if !ok {
      return FileFailed;
    }
    var buf := new Byte[CHUNK_SIZE](_ => 0);
    var total := 0;
    while true
      invariant dest.Valid() && dest.faults >= old(dest.faults) && old(dest.history) <= dest.history
      invariant stream.pos <= stream.Reach() && total == Min(stream.pos, U64_MAX)
      invariant dest.content == Some(stream.data[..stream.pos])
      invariant stream.pos <= cap || cap == U64_MAX
      invariant forall i | |old(dest.history)| <= i < |dest.history| :: Bounded(dest.history[i], stream.data, cap)
      decreases |stream.data| - stream.pos
    {
      ghost var before := stream.pos;
      var n := stream.Read(buf, CHUNK_SIZE);
      if n.None? {
        return BodyFailed;
      }
      if n.value == 0 {
        break;
      }
      total := SaturatingAdd(total, n.value);
      if total > cap {
        var removed := dest.Unlink();
        return CapExceeded(removed);
      }
      Appended(stream.data, before, stream.pos, cap);
      ok := dest.WriteAll(buf[..n.value]);
      if !ok {
        return FileFailed;
      }
    }
    assert stream.data[..stream.pos] == stream.data;
    var failed := dest.Fault(); // flush
    return if failed then FileFailed else Downloaded;
  }

  lemma Appended(data: seq<Byte>, from: nat, to: nat, cap: nat)
    requires from <= to <= |data| && (to <= cap || cap == U64_MAX)
    ensures data[..from] + data[from..to] == data[..to]
    ensures forall c: seq<Byte> | data[..from] <= c <= data[..to] :: Bounded(Some(c), data, cap)
  {
    assert data == data[..to] + data[to..];
  }

  /** Both readers accept the same bodies, for every way the body may arrive, and return the same bytes. */
  method BothAgree(data: seq<Byte>, faultAt: Option<nat>, cap: nat, dest: Destination)
      returns (inMemory: Outcome, onDisk: Download)
    requires cap < U64_MAX && dest.Valid()
    modifies dest
    ensures inMemory == Verdict(data, faultAt, cap)
    ensures inMemory.Complete? ==> inMemory.body == data
    ensures inMemory.Complete? <==> |data| <= cap && (faultAt.Some? ==> faultAt.value > |data|)
    ensures inMemory.TooLarge? <==> |data| > cap && (faultAt.Some? ==> faultAt.value > cap)
    ensures dest.Valid() && dest.faults >= old(dest.faults)
    ensures onDisk.Downloaded? ==> inMemory.Complete? && dest.content == Some(inMemory.body)
    ensures dest.faults == old(dest.faults) ==>
      && (onDisk.Downloaded? <==> inMemory.Complete?) && (onDisk.CapExceeded? <==> inMemory.TooLarge?)
      && (onDisk.CapExceeded? ==> dest.content.None?)
  {
    var memory := new Stream(data, faultAt);
    inMemory := ReadBodyCapped(memory, cap);
    var body := new Stream(data, faultAt);
    onDisk := DownloadCapped(body, dest, cap);
  }
}
