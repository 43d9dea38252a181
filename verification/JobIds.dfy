/** Job ids: the low four decimal digits of the submission counter. */
module JobIds {

  function DigitOf(d: int): char
    requires 0 <= d < 10
  {
    "0123456789"[d]
  }

  /** A count without its last `k` digits. */
  function Shift(n: nat, k: nat): nat { if k == 0 then n else Shift(n, k - 1) / 10 }

  /** The four digits of a count. */
  function Padded(n: nat): string {
    [DigitOf(Shift(n, 3) % 10), DigitOf(Shift(n, 2) % 10), DigitOf(Shift(n, 1) % 10), DigitOf(n % 10)]
  }

  function JobId(n: nat): string { "job-" + Padded(n) }

  lemma ShiftZero(n: nat, j: nat, k: nat)
    requires j <= k && Shift(n, j) == 0
    ensures Shift(n, k) == 0
  {}

  /** pad: fills a four-byte buffer from the right and drops whatever does not fit. */
  method Pad(n: nat) returns (s: string)
    ensures s == Padded(n)
  {
    var buf := new char[4](_ => '0');
    var i, left := 3, n;
    assert Shift(0, 1) == 0 && Shift(0, 2) == 0 && Shift(0, 3) == 0;
    while left > 0 && i >= 0
      invariant -1 <= i <= 3
      invariant left == Shift(n, 3 - i)
      invariant i < 3 ==> buf[3] == DigitOf(n % 10)
      invariant i < 2 ==> buf[2] == DigitOf(Shift(n, 1) % 10)
      invariant i < 1 ==> buf[1] == DigitOf(Shift(n, 2) % 10)
      invariant i < 0 ==> buf[0] == DigitOf(Shift(n, 3) % 10)
      invariant forall k :: 0 <= k <= i ==> buf[k] == '0'
      decreases i
    {
      buf[i] := DigitOf(left % 10);
      left := left / 10;
      i := i - 1;
    }
    forall k: nat | 3 - i <= k <= 3 && left == 0 ensures Shift(n, k) == 0 { ShiftZero(n, 3 - i, k); }
    s := buf[..];
  }

  lemma DigitsDiffer(a: int, b: int)
    requires 0 <= a < 10 && 0 <= b < 10 && DigitOf(a) == DigitOf(b)
    ensures a == b
  {}

  /** Ids repeat exactly every 10000 submissions. */
  lemma SameIdIff(n: nat, m: nat)
    ensures JobId(n) == JobId(m) <==> n % 10000 == m % 10000
  {
    Digits(n);
    Digits(m);
    if JobId(n) == JobId(m) {
      assert JobId(n)[4..] == Padded(n) && JobId(m)[4..] == Padded(m);
      assert Padded(n)[0] == Padded(m)[0] && Padded(n)[1] == Padded(m)[1] && Padded(n)[2] == Padded(m)[2]
          && Padded(n)[3] == Padded(m)[3];
      DigitsDiffer(Shift(n, 3) % 10, Shift(m, 3) % 10);
      DigitsDiffer(Shift(n, 2) % 10, Shift(m, 2) % 10);
      DigitsDiffer(Shift(n, 1) % 10, Shift(m, 1) % 10);
      DigitsDiffer(n % 10, m % 10);
    } else if n % 10000 == m % 10000 {
      SameDigits(n % 10000, [Shift(n, 3) % 10, Shift(n, 2) % 10, Shift(n, 1) % 10, n % 10],
          [Shift(m, 3) % 10, Shift(m, 2) % 10, Shift(m, 1) % 10, m % 10]);
    }
  }

  function Value(d: seq<nat>): nat
    requires |d| == 4
  {
    1000 * d[0] + 100 * d[1] + 10 * d[2] + d[3]
  }

  /** The low four digits are the remainder modulo 10000. */
  lemma Digits(n: nat)
    ensures n % 10000 == Value([Shift(n, 3) % 10, Shift(n, 2) % 10, Shift(n, 1) % 10, n % 10])
  {
    var d := [Shift(n, 3) % 10, Shift(n, 2) % 10, Shift(n, 1) % 10, n % 10];
    assert n == 10 * Shift(n, 1) + d[3];
    assert Shift(n, 1) == 10 * Shift(n, 2) + d[2];
    assert Shift(n, 2) == 10 * Shift(n, 3) + d[1];
    assert Shift(n, 3) == 10 * Shift(n, 4) + d[0];
    Remainder(n, Shift(n, 4), Value(d));
  }

  lemma Remainder(n: nat, q: nat, r: nat)
    requires n == 10000 * q + r && r < 10000
    ensures n % 10000 == r
  {}

  lemma SameDigits(v: nat, a: seq<nat>, b: seq<nat>)
    requires |a| == 4 && |b| == 4 && Value(a) == v && Value(b) == v
    requires forall i :: 0 <= i < 4 ==> a[i] < 10 && b[i] < 10
    ensures a == b
  {
    var (ha, hb) := (100 * a[0] + 10 * a[1] + a[2], 100 * b[0] + 10 * b[1] + b[2]);
    Tens(ha, a[3], hb, b[3]);
    Tens(10 * a[0] + a[1], a[2], 10 * b[0] + b[1], b[2]);
    Tens(a[0], a[1], b[0], b[1]);
  }

  lemma Tens(p: nat, a: nat, q: nat, b: nat)
    requires 10 * p + a == 10 * q + b && a < 10 && b < 10
    ensures p == q && a == b
  {}

  /** The queue after `n` submissions: each Enqueue stores its submission under its id. */
  function Queue(n: nat): map<string, nat> {
    if n == 0 then map[] else Queue(n - 1)[JobId(n) := n]
  }

  ghost predicate NothingOverwritten(n: nat) {
    forall i :: 1 <= i <= n ==> JobId(i) in Queue(n) && Queue(n)[JobId(i)] == i
  }

  lemma {:induction false} LatestWins(n: nat, i: nat)
    requires 1 <= i <= n
    ensures JobId(i) in Queue(n)
    ensures Queue(n)[JobId(i)] == i <==> n < i + 10000
    ensures Queue(n)[JobId(i)] <= n
    decreases n
  {
    hide JobId;
    SameIdIff(n, i);
    if i < n {
      LatestWins(n - 1, i);
      if JobId(n) == JobId(i) {
        assert n >= i + 10000;
      } else {
        assert n != i + 10000;
      }
    }
  }

  /** Records are all intact exactly while at most 10000 jobs have been submitted. */
  lemma QueueIntactIff(n: nat)
    ensures NothingOverwritten(n) <==> n <= 10000
  {
    hide JobId, Queue;
    if n > 10000 {
      LatestWins(n, 1);
      assert JobId(1) in Queue(n);
    } else {
      forall i | 1 <= i <= n ensures JobId(i) in Queue(n) && Queue(n)[JobId(i)] == i { LatestWins(n, i); }
    }
  }
}
