/** What a reader takes from the counter string of simple-kvm: the labels, and the two numbers
    by reading their decimal digits. */
module HypercallsText {
  import opened Memory
  import opened Paging
  import opened Hypercalls

  function Ascii(s: string): (bs: seq<byte>)
    ensures |bs| == |s|
  {
    seq(|s|, i requires 0 <= i < |s| => s[i] as int % 256)
  }

  /** The number that leading digits add to the digits read so far, and what follows them. */
  function ReadNumber(s: seq<byte>, sofar: nat): (r: (nat, seq<byte>))
  {
    if s == [] || s[0] < 48 || s[0] > 57 then (sofar, s)
    else ReadNumber(s[1..], 10 * sofar + (s[0] - 48))
  }

  /** The two numbers of "IO in: <n>", "IO out: <n>", each on a line of its own. */
  function ReadCounts(s: seq<byte>): Option<(nat, nat)> {
    if !(Ascii("IO in: ") <= s) then None else
      var (ins, rest) := ReadNumber(s[7..], 0);
      if !(Ascii("\nIO out: ") <= rest) then None else
        var (outs, end) := ReadNumber(rest[9..], 0);
        if end == Ascii("\n") then Some((ins, outs)) else None
  }

  /** Reading undoes printing, whatever follows. */
  lemma {:induction false} ReadDecimal(n: nat, rest: seq<byte>)
    ensures ReadNumber(Decimal(n) + rest, 0) == ReadNumber(rest, n)
  {
    var d := 48 + n % 10;
    assert ([d] + rest)[1..] == rest;
    if n < 10 {
      assert Decimal(n) + rest == [d] + rest;
    } else {
      ReadDecimal(n / 10, [d] + rest);
      assert Decimal(n) + rest == Decimal(n / 10) + ([d] + rest);
      assert 10 * (n / 10) + (d - 48) == n;
    }
  }

  /** No number is padded: only 0 begins with the digit 0. */
  lemma {:induction false} NoLeadingZero(n: nat)
    ensures Decimal(n) != [] && (Decimal(n)[0] == 48 ==> n == 0)
  {
    if n >= 10 {
      NoLeadingZero(n / 10);
    }
  }

  /** The text is read as the two counters, modulo 2^32 as %u prints them. */
  lemma {:induction false} CountsRead(ins: nat, outs: nat)
    ensures ReadCounts(CountsText(ins, outs)) == Some((Wrap32(ins), Wrap32(outs)))
  {
    hide ReadNumber, Decimal, Wrap32;
    Labels();
    var i, o := Decimal(Wrap32(ins)), Decimal(Wrap32(outs));
    var rest := Ascii("\nIO out: ") + o + NEWLINE;
    var s := CountsText(ins, outs);
    assert s == IO_IN + (i + rest);
    assert s[7..] == i + rest;
    ReadDecimal(Wrap32(ins), rest);
    StopsAt(rest, Wrap32(ins));
    assert rest == Ascii("\nIO out: ") + (o + NEWLINE);
    assert rest[9..] == o + NEWLINE;
    ReadDecimal(Wrap32(outs), NEWLINE);
    StopsAt(NEWLINE, Wrap32(outs));
  }

  lemma StopsAt(s: seq<byte>, n: nat)
    requires s != [] && s[0] < 48
    ensures ReadNumber(s, n) == (n, s)
  {
  }

  lemma Labels()
    ensures Ascii("IO in: ") == IO_IN
    ensures Ascii("\nIO out: ") == NEWLINE + IO_OUT
    ensures Ascii("\n") == NEWLINE
  {
  }

  /** MAIN RESULT. A program that prints through the pointer of any earlier HC_numExitsByType,
      its call i, shows the calls up to the latest such call, j: those that count as IN and
      the others. */
  lemma {:induction false} PrintedCounts(h: Host, base: nat, calls: seq<Call>, i: nat, j: nat, k: nat)
    requires Sound(h) && i <= j < k < |calls|
    requires calls[i].NumExitsByType? && calls[j].NumExitsByType?
    requires forall m :: j < m < k ==> !calls[m].NumExitsByType?
    requires calls[k] == PrintStr(Program(h, base, calls).1[i])
    ensures var (before, after) := (Program(h, base, calls[..k]).0.output, Program(h, base, calls[..k + 1]).0.output);
            var ins := InCalls(calls[..j + 1]);
            exists s :: after == before + [Str(s)]
                     && ReadCounts(s) == Some((Wrap32(h.ins + ins), Wrap32(h.outs + (j + 1 - ins))))
  {
    hide *;
    var g := Program(h, base, calls[..j + 1]).0;
    LatestCountsPrinted(h, base, calls, i, j, k);
    DirectionsCounted(h, base, calls[..j + 1]);
    CountsRead(g.ins, g.outs);
  }

  // ---------- What HC_numExitsByType writes ----------

  /** The call changes the 128 bytes at 0x100000 and no others, and of the hypervisor's buffer
      only the text and its zero byte. */
  lemma {:induction false} CountsWritten(h: Host, base: nat)
    requires Sound(h)
    ensures var g := Do(h, base, NumExitsByType);
            var n := |CountsText(h.ins + 1, h.outs)| + 1;
            && Sound(g) && n <= STR_BYTES
            && (forall a :: 0 <= a < MEM_SIZE && !(STR_ADDR <= a < STR_ADDR + STR_BYTES) ==> g.mem[a] == h.mem[a])
            && g.mem[STR_ADDR..STR_ADDR + STR_BYTES] == g.exitStr
            && g.exitStr[..n] == CountsText(h.ins + 1, h.outs) + [0]
            && g.exitStr[n..] == h.exitStr[n..]
  {
    hide CountsText;
    CountsTextShort(h.ins + 1, h.outs);
    var text := CountsText(h.ins + 1, h.outs) + [0];
    var s := Splice(h.exitStr, 0, text);
    assert s == NewExitStr(OnOut(h, base, 0xED, 0));
    assert s[0..|text|] == text;
    assert s[|text|..] == h.exitStr[|text|..];
  }
}
