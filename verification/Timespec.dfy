/** The timespec arithmetic of egg-time.h. */
module Timespecs {
  const NSEC_PER_SEC := 1000000000
  const USEC_PER_SEC := 1000000
  const TWO_64 := 0x1_0000_0000_0000_0000

  datatype Timespec = Timespec(sec: int, nsec: int)

  function Compare(a: Timespec, b: Timespec): int {
    if a.sec == b.sec && a.nsec == b.nsec then 0
    else if a.sec > b.sec || (a.sec == b.sec && a.nsec > b.nsec) then 1
    else -1
  }

  function Subtract(x: Timespec, y: Timespec): Timespec {
    var nsec := x.nsec - y.nsec;
    if nsec < 0 then Timespec(x.sec - y.sec - 1, nsec + NSEC_PER_SEC) else Timespec(x.sec - y.sec, nsec)
  }

  /** `timespec_add` carries only above a full second, so that it can leave nsec == NSEC_PER_SEC. */
  function Add(x: Timespec, y: Timespec): Timespec {
    var nsec := x.nsec + y.nsec;
    if nsec > NSEC_PER_SEC then Timespec(x.sec + y.sec + 1, nsec - NSEC_PER_SEC) else Timespec(x.sec + y.sec, nsec)
  }

  /** `timespec_to_usec`, in unsigned 64-bit arithmetic. */
  function ToUsec(t: Timespec): int { (t.sec * USEC_PER_SEC % TWO_64 + t.nsec / 1000) % TWO_64 }

  function FromUsec(u: int): Timespec { Timespec(u / USEC_PER_SEC, u % USEC_PER_SEC * 1000) }

  // ---------------------------------------------------------------- total nanoseconds

  function Total(t: Timespec): int { t.sec * NSEC_PER_SEC + t.nsec }

  predicate Normal(t: Timespec) { 0 <= t.nsec < NSEC_PER_SEC }

  /** What `Add` produces: normal, or a full second of nanoseconds. */
  predicate Deadline(t: Timespec) { 0 <= t.nsec <= NSEC_PER_SEC }

  lemma AddTotal(x: Timespec, y: Timespec)
    requires Normal(x) && Normal(y)
    ensures Total(Add(x, y)) == Total(x) + Total(y) && Deadline(Add(x, y))
    ensures !Normal(Add(x, y)) <==> x.nsec + y.nsec == NSEC_PER_SEC
  {
  }

  lemma SubtractTotal(x: Timespec, y: Timespec)
    requires Normal(x) && Normal(y)
    ensures Total(Subtract(x, y)) == Total(x) - Total(y) && Normal(Subtract(x, y))
  {
  }

  /** A clock reading is compared with a deadline as total nanoseconds, also when the deadline is not normal. */
  lemma ReadyByTotal(now: Timespec, deadline: Timespec)
    requires Normal(now) && Deadline(deadline)
    ensures Compare(now, deadline) >= 0 <==> Total(now) >= Total(deadline)
  {
    var s := now.sec - deadline.sec;
    assert Total(now) - Total(deadline) == s * NSEC_PER_SEC + now.nsec - deadline.nsec;
  }

  /**
   * Between two deadlines the comparison is the order of total nanoseconds, except that a deadline of a full second
   * of nanoseconds comes before the normal form of the same instant.
   */
  lemma DeadlineOrder(a: Timespec, b: Timespec)
    requires Deadline(a) && Deadline(b)
    ensures Compare(a, b) <= 0 ==> Total(a) <= Total(b)
    ensures (Compare(a, b) == if Total(a) < Total(b) then -1 else if Total(a) > Total(b) then 1 else 0)
       <==> Total(a) != Total(b) || a == b
    ensures Total(a) == Total(b) && a != b ==> {a.nsec, b.nsec} == {0, NSEC_PER_SEC}
  {
    var s := a.sec - b.sec;
    assert Total(a) - Total(b) == s * NSEC_PER_SEC + a.nsec - b.nsec;
  }

  lemma UsecRoundTrip(u: int)
    requires 0 <= u < TWO_64
    ensures ToUsec(FromUsec(u)) == u && Normal(FromUsec(u))
  {
    assert u % USEC_PER_SEC * 1000 / 1000 == u % USEC_PER_SEC;
  }

  /** For times before the 64-bit limit, the encoding in microseconds is the total rounded down. */
  lemma UsecIsFloor(t: Timespec)
    requires Normal(t) && 0 <= t.sec && Total(t) < 1000 * TWO_64
    ensures ToUsec(t) == Total(t) / 1000
    ensures FromUsec(ToUsec(t)) == Timespec(t.sec, t.nsec / 1000 * 1000)
  {
    var u := t.sec * USEC_PER_SEC + t.nsec / 1000;
    assert Total(t) == 1000 * u + t.nsec % 1000;
    BelowLimit(t.sec * USEC_PER_SEC, t.nsec / 1000);
    BySecond(u, t.sec, t.nsec / 1000);
  }

  lemma BelowLimit(x: int, y: int)
    requires 0 <= x && 0 <= y && x + y < TWO_64
    ensures (x % TWO_64 + y) % TWO_64 == x + y
  {
  }

  lemma BySecond(x: int, q: int, r: int)
    requires x == USEC_PER_SEC * q + r && 0 <= r < USEC_PER_SEC
    ensures x / USEC_PER_SEC == q && x % USEC_PER_SEC == r
  {
  }
}
