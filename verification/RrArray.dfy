/** rr_array.c: a ring buffer of frames. */
module RrArray {
  import opened RrCrc
  import opened RrRing

  // A frame is a 16-bit length, the bytes of the object and their check; bytes that hold no
  // frame are zero.

  // ---------------------------------------------------------------- frames

  // mc_set_v16_of_p8 and mc_get_v16_of_p8
  function Bytes(v: nat): (r: seq<Byte>)
    requires v < 0x10000
    ensures |r| == 2
  {
    [v % 0x100, v / 0x100]
  }

  function Value(lo: Byte, hi: Byte): nat { 0x100 * hi + lo }

  // A check of 16 bits; the source uses mc_crc16.
  type Check = seq<Byte> -> Word

  // An object that can be written.
  predicate Writable(o: seq<Byte>) { 0 < |o| < 0x10000 }

  function Frame(o: seq<Byte>, ck: Check): (r: seq<Byte>)
    requires Writable(o)
    ensures |r| == |o| + 4
  {
    Bytes(|o|) + o + Bytes(ck(o))
  }

  function Frames(q: seq<seq<Byte>>, ck: Check): seq<Byte>
    requires forall o | o in q :: Writable(o)
  {
    if q == [] then [] else Frame(q[0], ck) + Frames(q[1..], ck)
  }

  // What mc_rr_read_obj finds: an error of the source, or an object.
  datatype Outcome = Err(code: int) | Got(obj: seq<Byte>)

  function Data(ring: seq<Byte>, n: nat): (r: seq<Byte>)
    requires 2 <= |ring| && n <= |ring|
    ensures |r| == n
  {
    seq(n, i requires 0 <= i < n => RingAt(ring, 2 + i))
  }

  function Decode(ring: seq<Byte>, max: nat, ck: Check): Outcome
    requires 4 <= |ring|
  {
    var n := Value(ring[0], ring[1]);
    if n == 0 then Err(-1)
    else if n > max then Err(-2)
    else if n > |ring| then Err(-3)
    else if Value(RingAt(ring, 2 + n), RingAt(ring, 3 + n)) != ck(Data(ring, n)) then Err(-4)
    else Got(Data(ring, n))
  }

  lemma Assoc(a: seq<Byte>, b: seq<Byte>, c: seq<Byte>)
    ensures a + b + c == a + (b + c)
  {
  }

  lemma {:induction false} FramesAppend(q: seq<seq<Byte>>, o: seq<Byte>, ck: Check)
    requires Writable(o) && forall x | x in q :: Writable(x)
    ensures forall x | x in q + [o] :: Writable(x)
    ensures Frames(q + [o], ck) == Frames(q, ck) + Frame(o, ck)
  {
    if q == [] {
      assert (q + [o])[1..] == [];
    } else {
      assert (q + [o])[1..] == q[1..] + [o];
      FramesAppend(q[1..], o, ck);
      Assoc(Frame(q[0], ck), Frames(q[1..], ck), Frame(o, ck));
    }
  }

  lemma FrameParts(ring: seq<Byte>, o: seq<Byte>, data: seq<Byte>, ck: Check)
    requires Writable(o) && |data| == |o| && |o| + 4 <= |ring|
    requires ring[..|o| + 4] == Bytes(|o|) + data + Bytes(ck(o))
    ensures Value(ring[0], ring[1]) == |o| && Data(ring, |o|) == data
    ensures Value(ring[2 + |o|], ring[3 + |o|]) == ck(o)
  {
    var n, f := |o|, Bytes(|o|) + data + Bytes(ck(o));
    assert ring[0] == f[0] && ring[1] == f[1] && ring[2 + n] == f[2 + n] && ring[3 + n] == f[3 + n];
    forall i | 0 <= i < n ensures Data(ring, n)[i] == data[i] {
      assert ring[..n + 4][2 + i] == f[2 + i];
    }
  }

  // A frame at the start of the ring is read back.
  lemma DecodeFrame(ring: seq<Byte>, o: seq<Byte>, max: nat, ck: Check)
    requires Writable(o) && |o| + 4 <= |ring| && ring[..|o| + 4] == Frame(o, ck)
    ensures Decode(ring, max, ck) == if |o| > max then Err(-2) else Got(o)
  {
    FrameParts(ring, o, o, ck);
  }

  // If one byte of the object in a frame has changed, the frame is refused.
  lemma DamagedFrameIsRefused(ring: seq<Byte>, o: seq<Byte>, data: seq<Byte>, k: nat, max: nat)
    requires Writable(o) && OneByteOff(o, data, k) && |o| <= max && |o| + 4 <= |ring|
    requires ring[..|o| + 4] == Bytes(|o|) + data + Bytes(Crc(o))
    ensures Decode(ring, max, Crc) == Err(-4)
  {
    FrameParts(ring, o, data, Crc);
    OneByteOffIsSeen(o, data, k);
  }

  // ---------------------------------------------------------------- the ring buffer as a queue

  // The ring from the read pointer on: the frames of the unread objects, and zeros.
  ghost predicate Holds(ring: seq<Byte>, q: seq<seq<Byte>>, ck: Check) {
    && (forall o | o in q :: Writable(o))
    && Shows(ring, Frames(q, ck))
  }

  ghost predicate Shows(ring: seq<Byte>, bytes: seq<Byte>) {
    && |bytes| <= |ring|
    && forall i | 0 <= i < |ring| :: ring[i] == if i < |bytes| then bytes[i] else 0
  }

  // How many bytes mc_rr_write_obj looks at: w_sz has 16 bits.
  function ScanCount(size: nat): nat { (size + 6) % 0x10000 }

  // The scan covers the whole frame for all sizes that are let through, exactly when the
  // buffer is not one of the two largest.
  lemma ScanCovers(cap: nat)
    requires 4 <= cap <= 0xFFFF
    ensures (forall size: nat :: 0 < size <= cap - 4 ==> ScanCount(size) >= size + 4) <==> cap <= 0xFFFD
  {
    if cap > 0xFFFD { assert ScanCount(cap - 4) < cap; }
  }

  predicate ZeroAt(ring: seq<Byte>, i: nat) { i < 3 * |ring| ==> RingAt(ring, i) == 0 }

  // The bytes behind the unread frames, as far as they have been looked at.
  ghost predicate SeenZero(ring: seq<Byte>, n: nat, count: nat) {
    forall i {:trigger ZeroAt(ring, i)} | n <= i < n + count :: ZeroAt(ring, i)
  }

  // If the bytes behind the unread frames, and two more, are zero, then there is room. The
  // two bytes are needed because one byte of a length may be zero, but not both.
  lemma ScanFindsRoom(ring: seq<Byte>, q: seq<seq<Byte>>, size: nat, ck: Check)
    requires Holds(ring, q, ck) && 0 < size && size + 4 <= |ring| && SeenZero(ring, |Frames(q, ck)|, size + 6)
    ensures |Frames(q, ck)| + size + 4 <= |ring|
  {
    if q != [] {
      FirstLength(ring, q, ck);
      var c := |ring|;
      assert ZeroAt(ring, c) == (ring[0] == 0) && ZeroAt(ring, c + 1) == (ring[1] == 0);
    }
  }

  // An empty buffer takes everything, and otherwise two bytes more than the frame are enough.
  lemma RoomIsFound(ring: seq<Byte>, q: seq<seq<Byte>>, size: nat, ck: Check)
    requires Holds(ring, q, ck) && (q == [] || |Frames(q, ck)| + size + 6 <= |ring|)
    ensures SeenZero(ring, |Frames(q, ck)|, size + 6) && SeenZero(ring, |Frames(q, ck)|, ScanCount(size))
  {
    var n := |Frames(q, ck)|;
    forall i | n <= i < n + (size + 6) ensures ZeroAt(ring, i) {}
  }

  lemma LengthNotZero(n: nat)
    requires 0 < n < 0x10000
    ensures Bytes(n)[0] != 0 || Bytes(n)[1] != 0
  {
  }

  // The ring starts with a frame, and so with a length that is not zero.
  lemma FirstLength(ring: seq<Byte>, q: seq<seq<Byte>>, ck: Check)
    requires Holds(ring, q, ck) && q != []
    ensures q[0] in q && |q[0]| + 4 <= |Frames(q, ck)| <= |ring| && ring[..|q[0]| + 4] == Frame(q[0], ck)
    ensures ring[0] != 0 || ring[1] != 0
  {
    FramesTail(q, ck);
    var f, k := Frame(q[0], ck), |q[0]| + 4;
    assert forall i | 0 <= i < k :: Frames(q, ck)[i] == f[i];
    LengthNotZero(|q[0]|);
    LengthFirst(q[0], ck);
  }

  lemma LengthFirst(o: seq<Byte>, ck: Check)
    requires Writable(o)
    ensures Frame(o, ck)[0] == Bytes(|o|)[0] && Frame(o, ck)[1] == Bytes(|o|)[1]
  {
  }

  // A frame behind the others, in place of zeros.
  lemma HoldsWritten(ring: seq<Byte>, ring': seq<Byte>, q: seq<seq<Byte>>, o: seq<Byte>, ck: Check)
    requires Holds(ring, q, ck) && Writable(o) && |ring'| == |ring| && |Frames(q, ck)| + |o| + 4 <= |ring|
    requires forall i | 0 <= i < |ring| ::
               ring'[i] == if |Frames(q, ck)| <= i < |Frames(q, ck)| + |o| + 4 then Frame(o, ck)[i - |Frames(q, ck)|] else ring[i]
    ensures Holds(ring', q + [o], ck) && |Frames(q + [o], ck)| == |Frames(q, ck)| + |o| + 4
  {
    FramesAppend(q, o, ck);
  }

  // The first frame has become zeros, and the ring starts behind it.
  lemma HoldsRead(ring: seq<Byte>, ring': seq<Byte>, q: seq<seq<Byte>>, k: nat, ck: Check)
    requires Holds(ring, q, ck) && q != [] && |q[0]| + 4 == k <= |ring| == |ring'|
    requires forall i | 0 <= i < |ring| :: ring'[i] == if k + i < |ring| then ring[k + i] else 0
    ensures Holds(ring', q[1..], ck) && |Frames(q, ck)| == k + |Frames(q[1..], ck)|
  {
    assert q[0] in q;
    FramesTail(q, ck);
    assert forall i | 0 <= i < |Frames(q[1..], ck)| :: Frames(q[1..], ck)[i] == Frames(q, ck)[k + i];
  }

  lemma FramesTail(q: seq<seq<Byte>>, ck: Check)
    requires q != [] && forall o | o in q :: Writable(o)
    ensures (forall o | o in q[1..] :: Writable(o)) && Writable(q[0])
    ensures Frames(q, ck) == Frame(q[0], ck) + Frames(q[1..], ck)
  {
    forall o | o in q[1..] ensures o in q {}
    assert q[0] in q;
  }

  class RingBuffer {
    const cap: nat
    const buf: array<Byte>
    const check: Check
    var wr: nat   // wr_obj
    var rd: nat   // rd_obj
    var numWrErrs: nat
    var wrErr: int
    var rdErr: int
    ghost var queue: seq<seq<Byte>>  // the objects written and not yet read

    ghost predicate Valid()
      reads this, buf
    {
      && buf.Length == cap && 4 <= cap <= 0xFFFF && wr <= cap && rd <= cap
      && Holds(Ring(buf[..], rd), queue, check)
      && wr == Adv(cap, rd, |Frames(queue, check)|)
    }

    // mc_rr_init with reset
    constructor (size: nat)
      requires 4 <= size <= 0xFFFF
      ensures Valid() && cap == size && check == Crc && queue == [] && rd == 0 && fresh(buf)
    {
      cap := size;
      check := Crc;
      buf := new Byte[size](_ => 0);
      wr, rd, numWrErrs, wrErr, rdErr := 0, 0, 0, 0, 0;
      queue := [];
      new;
    }

    // mc_rr_get_v16
    method GetV16(ghost start: nat, ghost k: nat, dat: nat) returns (v: nat, next: nat)
      requires buf.Length == cap && start <= cap && k + 2 <= 2 * cap && dat == Adv(cap, start, k)
      ensures next == Adv(cap, start, k + 2)
      ensures v == Value(RingAt(Ring(buf[..], start), k), RingAt(Ring(buf[..], start), k + 1))
    {
      AdvStep(cap, start, k);
      AdvStep(cap, start, k + 1);
      RingRead(buf[..], start, k);
      RingRead(buf[..], start, k + 1);
      next := dat;
      if next == cap { next := 0; }
      var lo := buf[next];
      next := next + 1;
      if next == cap { next := 0; }
      var hi := buf[next];
      next := next + 1;
      v := Value(lo, hi);
    }

    // Bytes from a pointer on: the loops of mc_rr_write_obj and mc_rr_set_v16.
    method PutBytes(ghost start: nat, ghost k: nat, dat: nat, bytes: seq<Byte>) returns (next: nat)
      requires buf.Length == cap && start <= cap && k + |bytes| <= cap && dat == Adv(cap, start, k)
      modifies buf
      ensures next == Adv(cap, start, k + |bytes|)
      ensures forall i | 0 <= i < cap :: Ring(buf[..], start)[i] ==
                if k <= i < k + |bytes| then bytes[i - k] else old(Ring(buf[..], start))[i]
    {
      ghost var ring := Ring(buf[..], start);
      next := dat;
      for ii := 0 to |bytes|
        invariant next == Adv(cap, start, k + ii)
        invariant forall i | 0 <= i < cap :: Ring(buf[..], start)[i] == if k <= i < k + ii then bytes[i - k] else ring[i]
      {
        AdvStep(cap, start, k + ii);
        ghost var before := buf[..];
        if next == cap { next := 0; }
        buf[next] := bytes[ii];
        RingWrite(before, start, k + ii, bytes[ii], buf[..]);
        next := next + 1;
      }
    }
  
    // mc_rr_read_obj: an error leaves the objects alone; otherwise the oldest object comes
    // back. It stays in the buffer if its frame fills the buffer and the read pointer is not the
    // start of the buffer, because the loop that clears the frame then stops at once.
    method Read(max: nat) returns (r: Outcome)
      requires Valid() && max < 0x10000
      modifies this`rd, this`rdErr, this`queue, buf
      ensures Valid()
      ensures old(queue) == [] ==> r == Err(-1)
      ensures old(queue) != [] ==> r == if |old(queue)[0]| > max then Err(-2) else Got(old(queue)[0])
      ensures queue == if r.Got? && (|r.obj| + 4 < cap || old(rd) == 0) then old(queue)[1..] else old(queue)
      ensures rd == if r.Got? && |r.obj| + 4 <= cap then Adv(cap, old(rd), |r.obj| + 4) else old(rd)
      ensures rdErr == if r.Err? then r.code else old(rdErr)
    {
      ReadsFirst(Ring(buf[..], rd), queue, max, check);
      var dat;
      r, dat := Fetch(max);
      if r.Err? { rdErr := r.code; } else { Clear(|r.obj| + 4, dat); }
    }

    // mc_rr_read_obj up to the comparison of the checks.
    method Fetch(max: nat) returns (r: Outcome, dat: nat)
      requires buf.Length == cap && 4 <= cap && rd <= cap
      ensures r == Decode(Ring(buf[..], rd), max, check)
      ensures r.Got? ==> |r.obj| <= cap && dat == Adv(cap, rd, |r.obj| + 4)
    {
      var n;
      n, dat := GetV16(rd, 0, rd);
      if n == 0 { return Err(-1), dat; }
      if n > max { return Err(-2), dat; }
      if n > cap { return Err(-3), dat; }
      var obj;
      obj, dat := GetBytes(rd, dat, n);
      var found;
      found, dat := GetV16(rd, 2 + n, dat);
      if found != check(obj) { return Err(-4), dat; }
      r := Got(obj);
    }

    // The loop of mc_rr_read_obj over the object.
    method GetBytes(ghost start: nat, dat: nat, n: nat) returns (bytes: seq<Byte>, next: nat)
      requires buf.Length == cap && 4 <= cap && start <= cap && n <= cap && dat == Adv(cap, start, 2)
      ensures next == Adv(cap, start, 2 + n) && bytes == Data(Ring(buf[..], start), n)
    {
      bytes, next := [], dat;
      ghost var ring := Ring(buf[..], start);
      for ii := 0 to n
        invariant |bytes| == ii && next == Adv(cap, start, 2 + ii)
        invariant forall i | 0 <= i < ii :: bytes[i] == RingAt(ring, 2 + i)
      {
        ReadStep(buf[..], start, 2 + ii, next);
        if next == cap { next := 0; }
        bytes := bytes + [buf[next]];
        next := next + 1;
      }
    }

    // The end of mc_rr_read_obj: the frame is cleared, up to `dat`.
    method Clear(ghost k: nat, dat: nat)
      requires Valid() && queue != [] && |queue[0]| + 4 == k && dat == Adv(cap, rd, k)
      modifies this`rd, this`queue, buf
      ensures Valid() && queue == if k < cap || old(rd) == 0 then old(queue)[1..] else old(queue)
      ensures rd == dat
    {
      ghost var ring, start := Ring(buf[..], rd), rd;
      FirstLength(ring, queue, check);
      var dat2 := rd;
      ghost var i := 0;
      while dat2 != dat
        invariant queue == old(queue) && rd == start
        invariant i <= k && dat2 == Adv(cap, start, i) && (i > 0 ==> k < cap || start == 0)
        invariant forall j | 0 <= j < cap :: Ring(buf[..], start)[j] == if j < i then 0 else ring[j]
        decreases k - i
      {
        AdvStep(cap, start, i);
        AdvEnds(cap, start, i, k);
        ghost var before := buf[..];
        if dat2 == cap { dat2 := 0; }
        buf[dat2] := 0;
        RingWrite(before, start, i, 0, buf[..]);
        dat2 := dat2 + 1;
        i := i + 1;
      }
      rd := dat2;
      AdvEnds(cap, start, i, k);
      if i == k {
        RingCleared(buf[..], ring, start, k);
        HoldsRead(ring, Ring(buf[..], rd), queue, k, check);
        FrameCount(k, |Frames(queue[1..], check)|, start);
        queue := queue[1..];
      } else {
        assert Ring(buf[..], start) == ring;
      }
    }

    lemma FrameCount(k: nat, n: nat, start: nat)
      requires start <= cap && k + n <= cap
      ensures Adv(cap, Adv(cap, start, k), n) == Adv(cap, start, k + n)
    {
      AdvTwice(cap, start, k, n);
    }
  
    // mc_rr_write_obj: an object is refused, or it is the newest of the queue. Whatever bytes
    // the unread objects consist of, none of them is overwritten unless the object has 0xFFFA
    // bytes or more, so that the count of the scan wraps around.
    method Write(obj: seq<Byte>) returns (size: nat)
      requires Valid() && |obj| < 0x10000
      modifies this`wr, this`wrErr, this`numWrErrs, this`queue, buf
      ensures size == 0 || size == |obj|
      ensures queue == if size != 0 then old(queue) + [obj] else old(queue)
      ensures size != 0 <==>
                0 < |obj| && |obj| + 4 <= cap
                && SeenZero(old(Ring(buf[..], rd)), |Frames(old(queue), check)|, ScanCount(|obj|))
      ensures Valid() <==> size == 0 || |Frames(old(queue), check)| + |obj| + 4 <= cap
      ensures |obj| < 0xFFFA ==> Valid()
      ensures size != 0 && !Valid() ==> forall i | 0 <= i < |obj| + 4 :: Ring(buf[..], old(wr))[i] == Frame(obj, check)[i]
      ensures size == 0 ==> numWrErrs == (old(numWrErrs) + 1) % 0x1_0000_0000
      ensures size == 0 ==> wrErr == if |obj| > cap - 4 then -1 else if |obj| == 0 then -2 else -3
      ensures size != 0 ==> numWrErrs == old(numWrErrs) && wrErr == old(wrErr)
    {
      var err := 0;
      if |obj| > cap - 4 { err := -1; }
      else if |obj| == 0 { err := -2; }
      else {
        var free := ScanFree(|obj|);
        if !free { err := -3; }
      }
      if err != 0 {
        wrErr := err;
        numWrErrs := (numWrErrs + 1) % 0x1_0000_0000;
        return 0;
      }
      if |Frames(queue, check)| + |obj| + 4 > cap && |obj| < 0xFFFA {
        ScanFindsRoom(Ring(buf[..], rd), queue, |obj|, check);
      }
      Put(obj);
      size := |obj|;
    }

    // The scan of mc_rr_write_obj.
    method ScanFree(size: nat) returns (free: bool)
      requires Valid() && 0 < size <= cap - 4
      ensures free == SeenZero(Ring(buf[..], rd), |Frames(queue, check)|, ScanCount(size))
    {
      free := ScanZeros(rd, |Frames(queue, check)|, wr, (size + 6) % 0x10000);
    }

    method ScanZeros(ghost start: nat, ghost n: nat, dat: nat, count: nat) returns (zero: bool)
      requires buf.Length == cap && start <= cap && n + count <= 3 * cap && dat == Adv(cap, start, n)
      ensures zero == SeenZero(Ring(buf[..], start), n, count)
    {
      ghost var b, ring := buf[..], Ring(buf[..], start);
      var dat2 := dat;
      for i := 0 to count
        invariant dat2 == Adv(cap, start, n + i)
        invariant SeenZero(ring, n, i)
      {
        ReadStep(b, start, n + i, dat2);
        if dat2 == cap { dat2 := 0; }
        assert ZeroAt(ring, n + i) <==> buf[dat2] == 0;
        if buf[dat2] != 0 { return false; }
        dat2 := dat2 + 1;
      }
      zero := true;
    }

    // The length, the bytes of the object and their check.
    method PutFrame(ghost start: nat, ghost k: nat, dat: nat, obj: seq<Byte>) returns (next: nat)
      requires buf.Length == cap && start <= cap && Writable(obj) && k + |obj| + 4 <= cap && dat == Adv(cap, start, k)
      modifies buf
      ensures next == Adv(cap, start, k + |obj| + 4)
      ensures forall i | 0 <= i < cap :: Ring(buf[..], start)[i] ==
                if k <= i < k + |obj| + 4 then Frame(obj, check)[i - k] else old(Ring(buf[..], start))[i]
    {
      next := PutBytes(start, k, dat, Bytes(|obj|));
      next := PutBytes(start, k + 2, next, obj);
      next := PutBytes(start, k + 2 + |obj|, next, Bytes(check(obj)));
    }

    // The frame is written from the write pointer on, whether there is room for it or not.
    method Put(obj: seq<Byte>)
      requires Valid() && Writable(obj) && |obj| + 4 <= cap
      modifies this`wr, this`queue, buf
      ensures queue == old(queue) + [obj]
      ensures Valid() <==> |Frames(old(queue), check)| + |obj| + 4 <= cap
      ensures !Valid() ==> forall i | 0 <= i < |obj| + 4 :: Ring(buf[..], old(wr))[i] == Frame(obj, check)[i]
    {
      ghost var ring, n := Ring(buf[..], rd), |Frames(queue, check)|;
      ghost var start, k := if n + |obj| + 4 <= cap then rd else wr, if n + |obj| + 4 <= cap then n else 0;
      wr := PutFrame(start, k, wr, obj);
      if n + |obj| + 4 <= cap {
        HoldsWritten(ring, Ring(buf[..], rd), queue, obj, check);
      } else {
        FramesAppend(queue, obj, check);
      }
      queue := queue + [obj];
    }
  }

  // Behind a frame that has been cleared the ring shows the rest, and the zeros at its end.
  lemma RingCleared(b: seq<Byte>, ring: seq<Byte>, start: nat, k: nat)
    requires start <= |b| == |ring| && k <= |b|
    requires forall j | 0 <= j < |b| :: Ring(b, start)[j] == if j < k then 0 else ring[j]
    ensures forall i | 0 <= i < |b| :: Ring(b, Adv(|b|, start, k))[i] == if k + i < |b| then ring[k + i] else 0
  {
    forall i | 0 <= i < |b| ensures Ring(b, Adv(|b|, start, k))[i] == if k + i < |b| then ring[k + i] else 0 {
      RingShift(b, start, k, i);
    }
  }

  // A pointer comes back to where it started only after the whole ring, and not from the first
  // byte.
  lemma AdvEnds(cap: nat, p: nat, i: nat, k: nat)
    requires 0 < cap && p <= cap && i <= k <= cap
    ensures Adv(cap, p, i) == Adv(cap, p, k) <==> i == k || (i == 0 && k == cap && p != 0)
  {
  }

  lemma ReadsFirst(ring: seq<Byte>, q: seq<seq<Byte>>, max: nat, ck: Check)
    requires Holds(ring, q, ck) && 4 <= |ring|
    ensures q == [] ==> Decode(ring, max, ck) == Err(-1)
    ensures q != [] ==> q[0] in q && |q[0]| + 4 <= |ring|
                        && Decode(ring, max, ck) == if |q[0]| > max then Err(-2) else Got(q[0])
  {
    if q != [] {
      FirstLength(ring, q, ck);
      DecodeFrame(ring, q[0], max, ck);
    }
  }

  // An empty buffer takes everything that fits.
  method FillsEmpty(b: RingBuffer, obj: seq<Byte>) returns (size: nat)
    requires b.Valid() && b.queue == [] && 0 < |obj| && |obj| + 4 <= b.cap
    modifies b, b.buf
    ensures b.Valid() && size == |obj| && b.queue == [obj] && b.rd == old(b.rd)
    ensures |Frames(b.queue, b.check)| == |obj| + 4
  {
    RoomIsFound(Ring(b.buf[..], b.rd), [], |obj|, b.check);
    size := b.Write(obj);
    FramesTail(b.queue, b.check);
  }

  // A buffer whose read pointer has left the start: one byte has been written and read.
  method LeavesStart(cap: nat) returns (b: RingBuffer)
    requires 5 <= cap <= 0xFFFF
    ensures fresh(b) && fresh(b.buf) && b.Valid() && b.cap == cap && b.queue == [] && b.rd == 5
  {
    b := new RingBuffer(cap);
    var n := FillsEmpty(b, [1]);
    var r := b.Read(1);
  }

  // Then an object whose frame fills the buffer is delivered again and again.
  method DeliversAgain(b: RingBuffer, obj: seq<Byte>) returns (r1: Outcome, r2: Outcome)
    requires b.Valid() && b.queue == [] && b.rd != 0 && |obj| + 4 == b.cap && b.cap > 4
    modifies b, b.buf
    ensures b.Valid() && r1 == Got(obj) && r2 == Got(obj) && b.queue == [obj]
  {
    var n := FillsEmpty(b, obj);
    r1 := b.Read(b.cap);
    r2 := b.Read(b.cap);
  }

  // So this happens in every buffer that can hold more than nothing.
  method DeliversTwice(cap: nat) returns (b: RingBuffer, obj: seq<Byte>, r1: Outcome, r2: Outcome)
    requires 5 <= cap <= 0xFFFF
    ensures b.Valid() && b.cap == cap && |obj| + 4 == cap && r1 == Got(obj) && r2 == Got(obj) && b.queue == [obj]
  {
    b := LeavesStart(cap);
    obj := seq(cap - 4, _ => 7);
    r1, r2 := DeliversAgain(b, obj);
  }

  // In the two largest buffers an object of 0xFFFA bytes is not scanned for at all: it is accepted
  // on top of an unread one, and the next read finds nothing.
  method WritesOver(cap: nat) returns (b: RingBuffer, size1: nat, size2: nat, r: Outcome)
    requires 0xFFFE <= cap <= 0xFFFF
    ensures b.cap == cap && size1 == 1 && size2 == 0xFFFA && |b.queue| == 2 && r == Err(-1)
  {
    b := new RingBuffer(cap);
    size1 := FillsEmpty(b, [1]);
    size2, r := Covers(b, seq(0xFFFA, _ => 0));
  }

  // The object of zeros covers the length of the unread frame.
  method Covers(b: RingBuffer, obj: seq<Byte>) returns (size: nat, r: Outcome)
    requires b.Valid() && 0xFFFE <= b.cap && |b.queue| == 1 && |Frames(b.queue, b.check)| == 5 && b.rd == 0
    requires |obj| == 0xFFFA && forall i | 0 <= i < |obj| :: obj[i] == 0
    modifies b, b.buf
    ensures size == 0xFFFA && |b.queue| == 2 && r == Err(-1)
  {
    size := b.Write(obj);
    FirstBytes(b.buf[..], 5, obj, b.check);
    var dat;
    r, dat := b.Fetch(1);
  }

  // A frame of zeros written from place 5 on reaches round to the first two bytes.
  lemma FirstBytes(b: seq<Byte>, p: nat, obj: seq<Byte>, ck: Check)
    requires 7 <= p + 2 <= |b| - 1 && Writable(obj) && |b| <= |obj| + p && |obj| + 4 <= |b|
    requires forall i | 0 <= i < |obj| :: obj[i] == 0
    requires forall i | 0 <= i < |obj| + 4 :: Ring(b, p)[i] == Frame(obj, ck)[i]
    ensures Ring(b, 0)[0] == 0 && Ring(b, 0)[1] == 0
  {
    var k := |b| - p;
    assert Ring(b, p)[k] == Frame(obj, ck)[k] == obj[k - 2];
    assert Ring(b, p)[k + 1] == Frame(obj, ck)[k + 1] == obj[k - 1];
  }
}
