/** Deriving a fragment size from a frame budget, and how exactly the budget is met. */
module FragmentBudget {
  import opened Base
  import opened Bincode
  import opened FragmentWire
  import opened Fragmenter

  const ENVELOPE_GUARD_BYTES: nat := 32

  /** Measured on a header of zeros, whose every field encodes to one byte. */
  function FragmentOverhead(): nat {
    |MAGIC| + 2 + |HeaderWire(FragmentHeader(0, 0, false))|
  }

  function SaturatingSub(a: nat, b: nat): nat { if a < b then 0 else a - b }

  /** The fragment payload cap for a frame budget, or none when nothing would be left. */
  function PayloadCap(budget: usize): Option<usize> {
    if budget <= FragmentOverhead() then None
    else
      var available := SaturatingSub(budget, FragmentOverhead() + ENVELOPE_GUARD_BYTES);
      if available == 0 then None else Some(available)
  }

  /** A cap exists exactly from 42 bytes up, and then leaves 41 bytes for everything else. */
  lemma CapLeaves41(budget: usize)
    ensures PayloadCap(budget).Some? <==> budget >= 42
    ensures PayloadCap(budget).Some? ==> PayloadCap(budget).value == budget - 41
  {
    assert |HeaderWire(FragmentHeader(0, 0, false))| == 3;
  }

  predicate FitsAt(budget: usize, e: Envelope) {
    |e.payload| <= U64_MAX && |EnvelopeWire(e)| <= budget
  }

  ghost predicate AllFit(budget: usize, es: seq<Envelope>) {
    forall i :: 0 <= i < |es| ==> FitsAt(budget, es[i])
  }

  /** The packets fragmentation produces under `budget` for this packet all encode within it. */
  ghost predicate Fits(budget: usize, id: u64, p: Envelope)
    requires PayloadCap(budget).Some?
  {
    var r := PacketFragments(id, p, PayloadCap(budget).value);
    r.Ok? ==> AllFit(budget, r.value)
  }

  /** An envelope with a payload of at most `n` bytes takes at most 15 bytes and a length more. */
  lemma EnvelopeBound(e: Envelope, n: u64)
    requires |e.payload| <= n
    ensures |EnvelopeWire(e)| <= 15 + VarintLength(n) + n
  {
  }

  lemma PacketBound(budget: usize, id: u64, p: Envelope)
    requires PayloadCap(budget).Some? && budget <= U32_MAX + 20
    ensures Fits(budget, id, p)
  {
    CapLeaves41(budget);
    var cap := PayloadCap(budget).value;
    var r := PacketFragments(id, p, cap);
    PiecesCover(p.payload, cap);
    var pieces := Pieces(p.payload, cap);
    if r.Ok? {
      forall i | 0 <= i < |r.value|
        ensures FitsAt(budget, r.value[i])
      {
        if |pieces| == 1 {
          EnvelopeBound(r.value[i], cap);
        } else {
          var f := Tagged(id, pieces)[i];
          assert r.value[i] == p.(payload := FragmentPayload(f.header, f.payload));
          EnvelopeBound(r.value[i], cap + 21);
        }
      }
    }
  }

  /** Where a chunk lies: after the full ones before it, and the last one ends the payload. */
  lemma {:induction false} PieceEnds(payload: bytes, cap: nat, i: nat)
    requires cap > 0 && i < |Pieces(payload, cap)|
    ensures i * cap + |Pieces(payload, cap)[i]| <= |payload|
    decreases i
  {
    if i > 0 {
      PieceEnds(payload[cap..], cap, i - 1);
      assert i * cap == (i - 1) * cap + cap;
    }
  }

  /** The largest length a fragment packet can have by its index and the bytes it carries. */
  lemma FragmentBound(p: Envelope, id: u64, i: u32, last: bool, body: bytes)
    requires |FragmentPayload(FragmentHeader(id, i, last), body)| <= U64_MAX
    ensures |EnvelopeWire(p.(payload := FragmentPayload(FragmentHeader(id, i, last), body)))|
         <= 40 + VarintLength(i) + |body|
  {
  }

  /**
    Past the point where a payload could reach index 251 with a nearly full fragment, a payload
    the program can hold never does, and then the budget is kept however large it is.
   */
  lemma HugeBound(budget: usize, id: u64, p: Envelope)
    requires PayloadCap(budget).Some? && |p.payload| <= ISIZE_MAX
    requires 252 * (budget - 41) - 1 > ISIZE_MAX
    ensures Fits(budget, id, p)
  {
    CapLeaves41(budget);
    var cap := PayloadCap(budget).value;
    var r := PacketFragments(id, p, cap);
    PiecesCover(p.payload, cap);
    var pieces := Pieces(p.payload, cap);
    if r.Ok? {
      forall i | 0 <= i < |r.value|
        ensures FitsAt(budget, r.value[i])
      {
        if |pieces| == 1 {
          EnvelopeBound(r.value[i], cap);
        } else {
          HugeFragment(budget, id, p, i);
        }
      }
    }
  }

  lemma HugeFragment(budget: usize, id: u64, p: Envelope, i: u32)
    requires 42 <= budget && |p.payload| <= ISIZE_MAX && 252 * (budget - 41) - 1 > ISIZE_MAX
    requires i < |Pieces(p.payload, budget - 41)|
    ensures var pieces := Pieces(p.payload, budget - 41);
            FitsAt(budget, p.(payload := FragmentPayload(FragmentHeader(id, i, i == |pieces| - 1), pieces[i])))
  {
    var cap := budget - 41;
    var pieces := Pieces(p.payload, cap);
    PiecesCover(p.payload, cap);
    PieceEnds(p.payload, cap, i);
    if i >= 252 {
      Scales(252, i, cap);
    }
    assert VarintLength(i) + |pieces[i]| <= cap + 1;
    FragmentBound(p, id, i, i == |pieces| - 1, pieces[i]);
  }

  /** `n - 1` full chunks and a last one of the remaining bytes. */
  lemma {:induction false} EvenPieces(payload: bytes, cap: nat, n: nat, last: nat)
    requires n > 0 && 0 < last <= cap && |payload| == (n - 1) * cap + last
    ensures |Pieces(payload, cap)| == n && |Pieces(payload, cap)[n - 1]| == last
    decreases n
  {
    if n > 1 {
      assert (n - 1) * cap == (n - 2) * cap + cap;
      Scales(0, n - 2, cap);
      EvenPieces(payload[cap..], cap, n - 1, last);
    }
  }

  /** A packet with every identifier at full width and `n` fragments, the last carrying `last` bytes. */
  const WIDEST_ID: u64 := U64_MAX - 1

  function Widest(cap: nat, n: nat, last: nat): Envelope
    requires n > 0
  {
    Envelope(U32_MAX, Some(U64_MAX), seq((n - 1) * cap + last, _ => 0))
  }

  lemma WidestLength(cap: usize, n: nat, last: nat)
    requires 1 < n <= MAX_FRAGMENTS && 0 < last <= cap && last + 21 <= U64_MAX
    ensures var r := PacketFragments(WIDEST_ID, Widest(cap, n, last), cap);
            var size := last + 16 + VarintLength(n - 1);
            && r.Ok? && |r.value| == n && |r.value[n - 1].payload| == size
            && |EnvelopeWire(r.value[n - 1])| == 15 + VarintLength(size) + size
  {
    var p := Widest(cap, n, last);
    EvenPieces(p.payload, cap, n, last);
    var pieces := Pieces(p.payload, cap);
    var f := Tagged(WIDEST_ID, pieces)[n - 1];
    var e := PacketFragments(WIDEST_ID, p, cap).value[n - 1];
    assert f.header == FragmentHeader(WIDEST_ID, n - 1, true) && |f.payload| == last;
    assert e == p.(payload := FragmentPayload(f.header, f.payload));
  }

  /**
    The budget is kept by every message identifier, packet identifier, correlation identifier and
    payload a `Vec` can hold exactly up to 4 GiB and 19 bytes, or so far beyond that no payload is
    long enough to reach index 251; the supported maximum is 16 MiB.
   */
  lemma BudgetIsKept(budget: usize)
    requires PayloadCap(budget).Some?
    ensures (forall id: u64, p: Envelope | |p.payload| <= ISIZE_MAX :: Fits(budget, id, p))
       <==> budget <= U32_MAX + 20 || 252 * (budget - 41) - 1 > ISIZE_MAX
  {
    CapLeaves41(budget);
    if budget <= U32_MAX + 20 || 252 * (budget - 41) - 1 > ISIZE_MAX {
      forall id: u64, p: Envelope | |p.payload| <= ISIZE_MAX
        ensures Fits(budget, id, p)
      {
        if budget <= U32_MAX + 20 {
          PacketBound(budget, id, p);
        } else {
          HugeBound(budget, id, p);
        }
      }
    } else {
      BudgetIsBroken(budget);
    }
  }

  /** Index 251 breaks the budget with a nearly full fragment, or near the border index 65536 with a full one. */
  lemma BudgetIsBroken(budget: usize)
    requires PayloadCap(budget).Some? && U32_MAX + 20 < budget && 252 * (budget - 41) - 1 <= ISIZE_MAX
    ensures exists p: Envelope :: |p.payload| <= ISIZE_MAX && !Fits(budget, WIDEST_ID, p)
  {
    CapLeaves41(budget);
    var cap := budget - 41;
    if cap + 18 > U32_MAX {
      assert VarintLength(cap + 18) == 9;
      WidestUnfit(budget, cap, 252, cap - 1);
      assert !Fits(budget, WIDEST_ID, Widest(cap, 252, cap - 1));
    } else {
      assert VarintLength(cap + 21) == 9;
      WidestUnfit(budget, cap, 0x1_0001, cap);
      assert !Fits(budget, WIDEST_ID, Widest(cap, 0x1_0001, cap));
    }
  }

  lemma WidestUnfit(budget: usize, cap: usize, n: nat, last: nat)
    requires 1 < n <= MAX_FRAGMENTS && 0 < last <= cap && last + 21 <= U64_MAX
    requires var size := last + 16 + VarintLength(n - 1); 15 + VarintLength(size) + size > budget
    ensures var r := PacketFragments(WIDEST_ID, Widest(cap, n, last), cap); r.Ok? && !AllFit(budget, r.value)
  {
    WidestLength(cap, n, last);
    Unfit(budget, PacketFragments(WIDEST_ID, Widest(cap, n, last), cap).value, n - 1);
  }

  lemma Unfit(budget: usize, es: seq<Envelope>, i: nat)
    requires i < |es| && !FitsAt(budget, es[i])
    ensures !AllFit(budget, es)
  {
  }

  /** No guard byte is spare: some packet fills its budget to the last byte. */
  lemma BudgetIsMet(budget: usize)
    requires U16_MAX + 21 <= budget <= U32_MAX + 20
    ensures PayloadCap(budget).Some? && |Widest(budget - 41, 0x1_0001, budget - 41).payload| <= ISIZE_MAX
    ensures var r := PacketFragments(WIDEST_ID, Widest(budget - 41, 0x1_0001, budget - 41), PayloadCap(budget).value);
            && r.Ok? && |r.value| == 0x1_0001 && |r.value[0x1_0000].payload| <= U64_MAX
            && |EnvelopeWire(r.value[0x1_0000])| == budget
  {
    CapLeaves41(budget);
    WidestLength(budget - 41, 0x1_0001, budget - 41);
  }

  /**
    The documented ceiling of cap plus overhead bounds a full fragment only while the message
    identifier and the index both encode to a single byte.
   */
  lemma CeilingHolds(cap: usize, h: FragmentHeader, body: bytes)
    requires |body| == cap
    ensures |FragmentPayload(h, body)| <= cap + FragmentOverhead() <==> h.messageId < 251 && h.index < 251
  {
    assert |HeaderWire(FragmentHeader(0, 0, false))| == 3;
  }
}
