/** The 92-byte buffer_state record that the hypervisor and both guests of emu4 share by
    copying: its layout in memory, the two guest loop bodies that update it, and the laws
    they keep. */
module RingState {
  import opened Memory

  const SLOTS := 20
  const STATE_ADDR: nat := 0x400
  const STATE_BYTES: nat := 92

  datatype BufferState = BufferState(prodP: int32, consP: int32, count: int32, buf: seq<int32>)

  const ZERO_STATE := BufferState(0, 0, 0, seq(SLOTS, _ => 0))

  /** The index arithmetic of the cyclic buffer. */
  function Slot(i: nat): (r: nat)
    ensures r < SLOTS
  {
    i % SLOTS
  }

  lemma SlotSmall(i: nat)
    requires i < SLOTS
    ensures Slot(i) == i
  {
  }

  lemma SlotAdd(a: nat, j: nat)
    ensures Slot(Slot(a) + j) == Slot(a + j)
  {
    var q := a / SLOTS;
    assert a + j == (Slot(a) + j) + SLOTS * q;
  }

  /** Fewer than twenty positions in a row never share a slot. */
  lemma SlotDistinct(a: nat, i: nat, j: nat)
    requires i < j < i + SLOTS
    ensures Slot(a + i) != Slot(a + j)
  {
  }

  // ---------- Layout ----------

  /** The record's members in the order in which they lie in memory. */
  function Ints(s: BufferState): (ws: seq<int32>)
    ensures |ws| == 3 + |s.buf|
  {
    [s.prodP, s.consP, s.count] + s.buf
  }

  function FromInts(ws: seq<int32>): BufferState
    requires |ws| == 23
  {
    BufferState(ws[0], ws[1], ws[2], ws[3..])
  }

  function Encode(s: BufferState): (bs: seq<byte>)
    requires |s.buf| == SLOTS
    ensures |bs| == STATE_BYTES
  {
    IntsBytes(Ints(s))
  }

  function Decode(bs: seq<byte>): (s: BufferState)
    requires |bs| == STATE_BYTES
    ensures |s.buf| == SLOTS
  {
    FromInts(seq(23, k requires 0 <= k < 23 => IntAt(bs, k)))
  }

  /** What a guest, or the hypervisor reading its memory, sees as the record. */
  function View(m: seq<byte>): (s: BufferState)
    requires STATE_ADDR + STATE_BYTES <= |m|
    ensures |s.buf| == SLOTS
  {
    Decode(m[STATE_ADDR..STATE_ADDR + STATE_BYTES])
  }

  /** struct buffer_state in memory: prod_p, cons_p, count and the slots, four bytes each. */
  lemma {:induction false} Layout(m: seq<byte>)
    requires STATE_ADDR + STATE_BYTES <= |m|
    ensures var s := View(m);
            && s.prodP == BytesInt(m[0x400..0x404])
            && s.consP == BytesInt(m[0x404..0x408])
            && s.count == BytesInt(m[0x408..0x40C])
            && forall i :: 0 <= i < SLOTS ==> s.buf[i] == BytesInt(m[0x40C + 4 * i..0x410 + 4 * i])
  {
    hide BytesInt;
    var bs := m[STATE_ADDR..STATE_ADDR + STATE_BYTES];
    forall k | 0 <= k < 23
      ensures IntAt(bs, k) == BytesInt(m[0x400 + 4 * k..0x404 + 4 * k])
    {
      SliceOfSlice(m, STATE_ADDR, STATE_BYTES, 4 * k, 4 * k + 4);
    }
    assert IntAt(bs, 0) == BytesInt(m[0x400..0x404]);
    forall i | 0 <= i < SLOTS
      ensures View(m).buf[i] == BytesInt(m[0x40C + 4 * i..0x410 + 4 * i])
    {
      assert View(m).buf[i] == IntAt(bs, 3 + i);
    }
  }

  lemma SliceOfSlice(m: seq<byte>, a: nat, n: nat, i: nat, j: nat)
    requires a + n <= |m| && i <= j <= n
    ensures m[a..a + n][i..j] == m[a + i..a + j]
  {
    var s := m[a..a + n];
    forall k | 0 <= k < j - i
      ensures s[i..j][k] == m[a + i..a + j][k]
    {
      assert s[i..j][k] == s[i + k];
    }
  }

  /** memcpy of the record into a guest and back returns the same record. */
  lemma {:induction false} DecodeEncode(s: BufferState)
    requires |s.buf| == SLOTS
    ensures Decode(Encode(s)) == s
  {
    var ws := Ints(s);
    forall k | 0 <= k < 23
      ensures IntAt(Encode(s), k) == ws[k]
    {
      IntAtIntsBytes(ws, k);
    }
    assert seq(23, k requires 0 <= k < 23 => IntAt(Encode(s), k)) == ws;
  }

  /** memcpy of 92 guest bytes out and back in leaves the bytes as they were. */
  lemma {:induction false} EncodeDecode(bs: seq<byte>)
    requires |bs| == STATE_BYTES
    ensures Encode(Decode(bs)) == bs
  {
    var ws := seq(23, k requires 0 <= k < 23 => IntAt(bs, k));
    assert Ints(FromInts(ws)) == ws;
    IntsBytesUnique(ws, bs);
  }

  /** Storing one int of the record changes that member and no other. */
  lemma {:induction false} StoreMember(s: BufferState, k: nat, v: int32)
    requires |s.buf| == SLOTS && k < 23
    ensures Splice(Encode(s), 4 * k, IntBytes(v)) == Encode(FromInts(Ints(s)[k := v]))
  {
    var bs := Splice(Encode(s), 4 * k, IntBytes(v));
    var ws := Ints(s)[k := v];
    forall j | 0 <= j < 23
      ensures IntAt(bs, j) == ws[j]
    {
      if j == k {
        IntRoundTrip(v);
        assert bs[4 * j..4 * j + 4] == IntBytes(v);
      } else {
        SpliceFrame(Encode(s), 4 * k, IntBytes(v), 4 * j, 4);
        IntAtIntsBytes(Ints(s), j);
      }
    }
    IntsBytesUnique(ws, bs);
    assert Ints(FromInts(ws)) == ws;
  }

  // ---------- Well-formed records and what they hold ----------

  ghost predicate WellFormed(s: BufferState) {
    && |s.buf| == SLOTS
    && 0 <= s.prodP < SLOTS && 0 <= s.consP < SLOTS
    && 0 <= s.count <= SLOTS
    && s.prodP == Slot(s.consP + s.count)
  }

  /** The slot j places after p. */
  function At(buf: seq<int32>, p: nat, j: nat): int32
    requires |buf| == SLOTS
  {
    buf[Slot(p + j)]
  }

  /** The n slots from p on, in order: what the printing loops of the hypervisor list. */
  function Window(buf: seq<int32>, p: nat, n: nat): (q: seq<int32>)
    requires |buf| == SLOTS
    ensures |q| == n
  {
    if n == 0 then [] else Window(buf, p, n - 1) + [At(buf, p, n - 1)]
  }

  /** The items between the two pointers, oldest first. */
  function Live(s: BufferState): (q: seq<int32>)
    requires |s.buf| == SLOTS && 0 <= s.consP && 0 <= s.count
    ensures |q| == s.count
  {
    Window(s.buf, s.consP, s.count)
  }

  /** A window may start anywhere that is the same slot, and splits into two windows. */
  lemma {:induction false} WindowSplit(buf: seq<int32>, p: nat, n: nat, k: nat)
    requires |buf| == SLOTS
    ensures Window(buf, p, n + k) == Window(buf, p, n) + Window(buf, Slot(p + n), k)
  {
    if k != 0 {
      WindowSplit(buf, p, n, k - 1);
      SlotAdd(p + n, k - 1);
    }
  }

  /** Two buffers that agree on the slots of a window, turned or not, show the same there. */
  lemma {:induction false} WindowSame(b: seq<int32>, p: nat, c: seq<int32>, r: nat, n: nat)
    requires |b| == |c| == SLOTS
    requires forall j: nat :: j < n ==> At(b, p, j) == At(c, r, j)
    ensures Window(b, p, n) == Window(c, r, n)
  {
    if n != 0 {
      WindowSame(b, p, c, r, n - 1);
    }
  }

  lemma {:induction false} WindowAt(buf: seq<int32>, p: nat, n: nat, j: nat)
    requires |buf| == SLOTS && j < n
    ensures Window(buf, p, n)[j] == At(buf, p, j)
  {
    if j < n - 1 {
      WindowAt(buf, p, n - 1, j);
    }
  }

  /** With made the items ever produced and consumed how many of them were taken out. */
  ghost predicate SlotLaw(s: BufferState, made: seq<int32>, consumed: nat) {
    && |s.buf| == SLOTS
    && consumed <= |made|
    && s.prodP == Slot(|made|)
    && s.consP == Slot(consumed)
    && s.count == |made| - consumed <= SLOTS
    && forall k {:trigger made[k]} :: consumed <= k < |made| ==> s.buf[Slot(k)] == made[k]
  }

  /** The slot law says exactly which items are live, and where. */
  lemma {:induction false} SlotLawLive(s: BufferState, made: seq<int32>, consumed: nat)
    requires consumed <= |made|
    ensures SlotLaw(s, made, consumed) <==>
            WellFormed(s) && s.consP == Slot(consumed) && Live(s) == made[consumed..]
  {
    if SlotLaw(s, made, consumed) {
      LiveIsHistory(s, made, consumed);
    }
    if WellFormed(s) && s.consP == Slot(consumed) && Live(s) == made[consumed..] {
      HistoryIsLive(s, made, consumed);
    }
  }

  lemma LiveIsHistory(s: BufferState, made: seq<int32>, consumed: nat)
    requires SlotLaw(s, made, consumed)
    ensures WellFormed(s) && Live(s) == made[consumed..]
  {
    SlotAdd(consumed, s.count);
    HistoryWindow(s.buf, made, consumed, s.count);
  }

  lemma {:induction false} HistoryWindow(buf: seq<int32>, made: seq<int32>, c: nat, n: nat)
    requires |buf| == SLOTS && c + n <= |made|
    requires forall k {:trigger made[k]} :: c <= k < |made| ==> buf[Slot(k)] == made[k]
    ensures Window(buf, Slot(c), n) == made[c..c + n]
  {
    if n != 0 {
      HistoryWindow(buf, made, c, n - 1);
      SlotAdd(c, n - 1);
      assert At(buf, Slot(c), n - 1) == made[c + n - 1];
      assert made[c..c + n] == made[c..c + n - 1] + [made[c + n - 1]];
    }
  }

  lemma HistoryIsLive(s: BufferState, made: seq<int32>, consumed: nat)
    requires WellFormed(s) && consumed <= |made|
    requires s.consP == Slot(consumed) && Live(s) == made[consumed..]
    ensures SlotLaw(s, made, consumed)
  {
    SlotAdd(consumed, s.count);
    forall k | consumed <= k < |made|
      ensures s.buf[Slot(k)] == made[k]
    {
      SlotAdd(consumed, k - consumed);
      WindowAt(s.buf, s.consP, s.count, k - consumed);
      assert made[consumed..][k - consumed] == made[k];
    }
  }

  // ---------- One iteration of each guest loop ----------

  /** guest4a: write the item at prod_p, advance prod_p, raise count. */
  function Put(s: BufferState, item: int32): BufferState
    requires WellFormed(s) && s.count < SLOTS
  {
    s.(buf := s.buf[s.prodP := item], prodP := Slot(s.prodP + 1), count := s.count + 1)
  }

  /** guest4b: advance cons_p, lower count. */
  function Drop(s: BufferState): BufferState
    requires WellFormed(s) && s.count > 0
  {
    s.(consP := Slot(s.consP + 1), count := s.count - 1)
  }

  lemma PutLive(s: BufferState, item: int32)
    requires WellFormed(s) && s.count < SLOTS
    ensures WellFormed(Put(s, item))
    ensures Live(Put(s, item)) == Live(s) + [item]
  {
    hide Slot;
    SlotAdd(s.consP + s.count, 1);
    forall j: nat | j < s.count
      ensures At(Put(s, item).buf, s.consP, j) == At(s.buf, s.consP, j)
    {
      SlotDistinct(s.consP, j, s.count);
    }
    WindowSame(Put(s, item).buf, s.consP, s.buf, s.consP, s.count);
  }

  lemma DropLive(s: BufferState)
    requires WellFormed(s) && s.count > 0
    ensures WellFormed(Drop(s))
    ensures Live(s) == [s.buf[s.consP]] + Live(Drop(s))
  {
    hide Slot;
    SlotSmall(s.consP);
    SlotAdd(s.consP + 1, s.count - 1);
    WindowSplit(s.buf, s.consP, 1, s.count - 1);
    assert Window(s.buf, s.consP, 1) == Window(s.buf, s.consP, 0) + [s.buf[s.consP]];
  }

  /** One producer iteration keeps the slot law, the history growing by the item. */
  lemma PutKeepsSlotLaw(s: BufferState, made: seq<int32>, consumed: nat, item: int32)
    requires SlotLaw(s, made, consumed) && s.count < SLOTS
    ensures WellFormed(s) && SlotLaw(Put(s, item), made + [item], consumed)
  {
    LiveIsHistory(s, made, consumed);
    PutLive(s, item);
    assert (made + [item])[consumed..] == made[consumed..] + [item];
    HistoryIsLive(Put(s, item), made + [item], consumed);
  }

  /** One consumer iteration keeps the slot law, one more item being gone. */
  lemma DropKeepsSlotLaw(s: BufferState, made: seq<int32>, consumed: nat)
    requires SlotLaw(s, made, consumed) && s.count > 0
    ensures WellFormed(s) && SlotLaw(Drop(s), made, consumed + 1)
  {
    LiveIsHistory(s, made, consumed);
    DropLive(s);
    SlotAdd(consumed, 1);
    assert made[consumed..][1..] == made[consumed + 1..];
    HistoryIsLive(Drop(s), made, consumed + 1);
  }

  // ---------- Whole batches ----------

  function PutAll(s: BufferState, items: seq<int32>): (r: BufferState)
    requires WellFormed(s) && s.count + |items| <= SLOTS
    ensures WellFormed(r)
    ensures Live(r) == Live(s) + items
    ensures r.consP == s.consP && r.count == s.count + |items|
  {
    if items == [] then s else
      var r0 := PutAll(s, items[..|items| - 1]);
      PutLive(r0, items[|items| - 1]);
      Put(r0, items[|items| - 1])
  }

  function DropMany(s: BufferState, k: nat): (r: BufferState)
    requires WellFormed(s) && k <= s.count
    ensures WellFormed(r)
    ensures Live(r) == Live(s)[k..]
    ensures r.buf == s.buf && r.prodP == s.prodP && r.count == s.count - k
  {
    if k == 0 then s else
      var r0 := DropMany(s, k - 1);
      DropLive(r0);
      Drop(r0)
  }
}
