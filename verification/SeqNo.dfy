/** Sequence numbers of the Tenet transport layer.

    On the air a packet carries a 16-bit number from 1 to 50000 that wraps around.
    The first half of this module is that arithmetic, branch for branch.  The second
    half relates it to a true, unbounded numbering of the packets: `Wrap(n)` is what
    packet `n` carries, and the lemmas say exactly when the wrapped operations give
    the answers the true ones would.
 */
module SeqNo {

  const FIRST_SEQNO := 1
  const MAX_SEQNO := 50000
  const VALID_RANGE := 200
  const U16 := 65536

  /** How much newer `seq2` is than `seq1`, assuming that it is the newer one. */
  function Diff(seq2: int, seq1: int): int {
    if seq1 > seq2 then (MAX_SEQNO + seq2 - seq1) % U16 else (seq2 - seq1) % U16
  }

  function Next(seqno: int): int {
    if seqno >= MAX_SEQNO then FIRST_SEQNO else seqno + 1
  }

  function Prev(seqno: int): int {
    if seqno <= FIRST_SEQNO then MAX_SEQNO else seqno - 1
  }

  /** What is left of a 16-bit number once MAX_SEQNO has been taken off as often as needed. */
  function Reduce(c: int): int {
    if c > MAX_SEQNO then Reduce(c - MAX_SEQNO) else c
  }

  function Add(a: int, b: int): int {
    var c := Reduce((a + b) % U16);
    if c < FIRST_SEQNO then FIRST_SEQNO else c
  }

  /** The addition as it is computed, by repeated subtraction. */
  method ComputeAdd(a: int, b: int) returns (c: int)
    ensures c == Add(a, b)
    ensures FIRST_SEQNO <= c <= MAX_SEQNO
  {
    c := (a + b) % U16;
    while c > MAX_SEQNO
      invariant 0 <= c
      invariant Reduce(c) == Reduce((a + b) % U16)
    {
      c := c - MAX_SEQNO;
    }
    if c < FIRST_SEQNO {
      c := FIRST_SEQNO;
    }
  }

  /** -1, 0 or 1 as `a` is older than, equal to or newer than `b`.  Numbers further apart
      than VALID_RANGE, in both directions, are compared as plain integers. */
  function Cmp(a: int, b: int): int {
    if a == b then 0
    else if a < b then
      if b - a <= VALID_RANGE then -1
      else if Add(a, (MAX_SEQNO - b) % U16) < VALID_RANGE then 1
      else -1
    else
      if a - b <= VALID_RANGE then 1
      else if Add(b, (MAX_SEQNO - a) % U16) < VALID_RANGE then -1
      else 1
  }

  /** The order test with which the sorted packet list looks for the place of a new entry. */
  predicate Precedes(value: int, other: int) {
    (value < other || value > other + MAX_SEQNO / 2) && value + MAX_SEQNO / 2 > other
  }

  // ---------------------------------------------------------------------------
  // The true numbering
  // ---------------------------------------------------------------------------

  /** The number that packet `n` carries.  0 is never sent in a data packet; it stands for
      "nothing received yet". */
  function Wrap(n: int): int {
    if n <= 0 then 0 else (n - 1) % MAX_SEQNO + 1
  }

  /** How often the numbering has wrapped around before packet `n`. */
  function Lap(n: nat): nat {
    if n == 0 then 0 else (n - 1) / MAX_SEQNO
  }

  function Sign(d: int): int {
    if d < 0 then -1 else if d == 0 then 0 else 1
  }

  function Abs(d: int): nat {
    if d < 0 then -d else d
  }

  /** Two packets whose carried numbers are compared the right way round. */
  predicate Comparable(a: nat, b: nat) {
    Abs(a - b) < VALID_RANGE || (Lap(a) == Lap(b) && Abs(a - b) <= MAX_SEQNO - VALID_RANGE)
  }

  lemma WrapDecomposes(n: nat)
    ensures n >= 1 ==> n == Lap(n) * MAX_SEQNO + Wrap(n) && 1 <= Wrap(n) <= MAX_SEQNO
    ensures n == 0 ==> Wrap(n) == 0
  {
  }

  /** Two packets less than a whole lap apart are on the same lap or on neighbouring ones. */
  lemma WrapDistance(a: nat, b: nat)
    requires a <= b < a + MAX_SEQNO
    ensures Lap(a) == Lap(b) ==> Wrap(b) - Wrap(a) == b - a
    ensures Lap(a) != Lap(b) ==> a >= 1 ==> Lap(b) == Lap(a) + 1 && Wrap(b) == Wrap(a) + (b - a) - MAX_SEQNO
    ensures a == 0 ==> Lap(a) == Lap(b)
    ensures Lap(a) <= Lap(b)
  {
    WrapDecomposes(a);
    WrapDecomposes(b);
    if a >= 1 {
      assert (Lap(b) - Lap(a)) * MAX_SEQNO == (b - a) - (Wrap(b) - Wrap(a));
    }
  }

  /** The comparison of carried numbers, in numbers. */
  lemma CmpValue(x: int, y: int)
    requires 0 <= x < y <= MAX_SEQNO
    ensures Cmp(x, y) == if y - x <= MAX_SEQNO - VALID_RANGE then -1 else 1
    ensures Cmp(y, x) == -Cmp(x, y)
  {
  }

  lemma CmpExactOlder(a: nat, b: nat)
    requires a <= b < a + MAX_SEQNO
    ensures Cmp(Wrap(a), Wrap(b)) == Sign(a - b) <==> Comparable(a, b)
    ensures Cmp(Wrap(b), Wrap(a)) == Sign(b - a) <==> Comparable(a, b)
  {
    WrapDecomposes(a);
    WrapDecomposes(b);
    WrapDistance(a, b);
    if Wrap(a) < Wrap(b) { CmpValue(Wrap(a), Wrap(b)); }
    if Wrap(b) < Wrap(a) { CmpValue(Wrap(b), Wrap(a)); }
  }

  /** The comparison agrees with the true order exactly when the two packets are less than
      VALID_RANGE apart or no wrap-around lies between them. */
  lemma CmpExact(a: nat, b: nat)
    requires Abs(a - b) < MAX_SEQNO
    ensures Cmp(Wrap(a), Wrap(b)) == Sign(a - b) <==> Comparable(a, b)
  {
    if a <= b { CmpExactOlder(a, b); } else { CmpExactOlder(b, a); }
  }

  /** At a distance of exactly VALID_RANGE the comparison already fails across a wrap-around,
      although that distance is inside the documented range of comparable numbers. */
  lemma CmpFailsAtTheEdge(a: nat, b: nat)
    requires b == a + VALID_RANGE && Lap(a) != Lap(b)
    ensures Cmp(Wrap(b), Wrap(a)) == -1
  {
    WrapDecomposes(a);
    WrapDecomposes(b);
    WrapDistance(a, b);
  }

  /** The order test of the sorted list agrees with the true order exactly up to half a lap. */
  lemma PrecedesExact(a: nat, b: nat)
    requires 1 <= a && 1 <= b && a != b && Abs(a - b) < MAX_SEQNO
    ensures Precedes(Wrap(a), Wrap(b)) == (a < b) <==>
            Abs(a - b) < MAX_SEQNO / 2 || a - b == MAX_SEQNO / 2
  {
    WrapDecomposes(a);
    WrapDecomposes(b);
    if a <= b {
      WrapDistance(a, b);
    } else {
      WrapDistance(b, a);
    }
  }

  lemma NextWraps(n: nat)
    ensures Next(Wrap(n)) == Wrap(n + 1)
  {
    WrapDecomposes(n);
    WrapDecomposes(n + 1);
    WrapDistance(n, n + 1);
  }

  lemma PrevWraps(n: nat)
    requires n >= 1
    ensures Prev(Wrap(n + 1)) == Wrap(n)
  {
    WrapDecomposes(n);
    WrapDistance(n, n + 1);
  }

  lemma AddWraps(n: nat, k: nat)
    requires 1 <= k < U16 - MAX_SEQNO
    ensures Add(Wrap(n), k) == Wrap(n + k)
  {
    WrapDecomposes(n);
    WrapDecomposes(n + k);
    assert k < MAX_SEQNO;
    WrapDistance(n, n + k);
    if Wrap(n) + k > MAX_SEQNO {
      assert Reduce(Wrap(n) + k) == Wrap(n) + k - MAX_SEQNO;
    }
  }

  lemma DiffWraps(a: nat, b: nat)
    requires b <= a < b + MAX_SEQNO
    ensures Diff(Wrap(a), Wrap(b)) == a - b
  {
    WrapDecomposes(a);
    WrapDecomposes(b);
    WrapDistance(b, a);
  }

  lemma WrapInjective(a: nat, b: nat)
    requires Abs(a - b) < MAX_SEQNO && Wrap(a) == Wrap(b)
    ensures a == b
  {
    WrapDecomposes(a);
    WrapDecomposes(b);
    if a <= b {
      WrapDistance(a, b);
    } else {
      WrapDistance(b, a);
    }
  }
}
