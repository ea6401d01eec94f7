/** Round-robin choice of an origin, with retries. */
module Puller {

  /** Whether the given attempt at the given origin is answered with a status below 500. */
  type Health = (nat, nat) -> bool

  const TWO_63: int := 0x8000_0000_0000_0000
  const TWO_64: int := 0x1_0000_0000_0000_0000

  /** Go's int(x) of a uint64, on a 64-bit platform. */
  function ToInt(c: int): int
    requires 0 <= c < TWO_64
  {
    if c < TWO_63 then c else c - TWO_64
  }

  /** Go's %, which takes the sign of its left operand. */
  function Rem(a: int, n: int): int
    requires n > 0
  {
    if a >= 0 then a % n else -((-a) % n)
  }

  /** `Panic` is an index out of range. */
  datatype Result = NoOrigins | Panic | AllFailed | Pulled(origin: nat, attempt: nat)

  function Start(counter: int, n: int): int
    requires 0 <= counter < TWO_64 && n > 0
  {
    Rem(ToInt(counter), n)
  }

  /** The origin tried at an attempt. */
  function At(start: nat, attempt: nat, n: int): nat
    requires n > 0
  {
    (start + attempt) % n
  }

  /** A remainder of a remainder, and the range of both. */
  lemma RemFacts(x: int, attempt: nat, n: int)
    requires n > 0
    ensures var start := Rem(x, n);
      && -n < start < n
      && (start < 0 ==> Rem(start + 0, n) == start)
      && (start >= 0 ==> Rem(start + attempt, n) == At(start, attempt, n) < n)
  {
    var start := Rem(x, n);
    if start < 0 {
      assert (-start) % n == -start;
    }
  }

  class Rotation {
    var counter: int

    ghost predicate Valid()
      reads this
    {
      0 <= counter < TWO_64
    }

    constructor ()
      ensures Valid() && counter == 0
    {
      counter := 0;
    }

    method Pull(n: nat, up: Health, retry: int) returns (r: Result)
      requires Valid()
      modifies this
      ensures Valid()
      ensures counter == if n == 0 then old(counter) else (old(counter) + 1) % TWO_64
      ensures r.NoOrigins? <==> n == 0
      ensures r.Panic? <==> n > 0 && retry >= 0 && Start(old(counter), n) < 0
      ensures n > 0 ==> (r.Pulled? <==> SomeUp(n, up, Start(old(counter), n), retry))
      ensures r.Pulled? ==> FirstUp(n, up, Start(old(counter), n), retry, r.origin, r.attempt)
      ensures n > 0 && Start(old(counter), n) >= 0 && retry >= n - 1 && Steady(up) ==>
        (r.Pulled? <==> exists origin: nat :: origin < n && up(0, origin))
    {
      if n == 0 {
        return NoOrigins;
      }
      var start := Rem(ToInt(counter), n);
      counter := (counter + 1) % TWO_64;
      assert Valid();
      if start >= 0 && retry >= n - 1 && Steady(up) {
        SucceedsIffSomeUp(n, up, start, retry);
      }
      var attempt := 0;
      while attempt <= retry
        invariant Valid() && counter == (old(counter) + 1) % TWO_64
        invariant 0 <= attempt && (start < 0 ==> attempt == 0)
        invariant start >= 0 ==> forall a: nat :: a < attempt ==> !up(a, At(start, a, n))
        decreases retry - attempt
      {
        RemFacts(ToInt(old(counter)), attempt, n);
        var idx := Rem(start + attempt, n);
        if idx < 0 {
          return Panic;
        }
        if up(attempt, idx) {
          return Pulled(idx, attempt);
        }
        attempt := attempt + 1;
      }
      r := AllFailed;
    }
  }

  /** Some of the allowed attempts, in rotation from `start`, is answered. */
  ghost predicate SomeUp(n: nat, up: Health, start: int, retry: int)
    requires n > 0
  {
    start >= 0 && exists a: nat :: a <= retry && up(a, At(start, a, n))
  }

  /** The first answered attempt in rotation from `start`, among those allowed, and its origin. */
  ghost predicate FirstUp(n: nat, up: Health, start: int, retry: int, origin: nat, attempt: nat) {
    && n > 0 && 0 <= start && attempt <= retry
    && origin == At(start, attempt, n) && up(attempt, origin)
    && forall a: nat :: a < attempt ==> !up(a, At(start, a, n))
  }

  /** No origin changes its health from one attempt to another. */
  ghost predicate Steady(up: Health) {
    forall a, origin :: up(a, origin) == up(0, origin)
  }

  /** A rotation of n attempts reaches every origin. */
  lemma RotationReaches(start: nat, n: int, origin: nat)
    requires origin < n
    ensures exists a: nat :: a < n && At(start, a, n) == origin
  {
    var s := start % n;
    var a := if origin >= s then origin - s else origin - s + n;
    var q := start / n;
    assert start == q * n + s;
    if origin >= s {
      assert start + a == q * n + origin;
      Residue(q, origin, n);
    } else {
      assert start + a == (q + 1) * n + origin by {
        assert (q + 1) * n == q * n + n;
      }
      Residue(q + 1, origin, n);
    }
    assert At(start, a, n) == origin;
  }

  lemma {:induction false} Residue(q: nat, r: nat, n: int)
    requires r < n
    ensures (q * n + r) % n == r && (q * n + r) / n == q
  {
    DivisionUnique(q * n + r, n, q, r);
  }

  lemma MultipleInside(d: int, n: int)
    requires -n < d * n < n
    ensures d == 0
  {
    if d >= 1 {
      MulLarge(d, n);
    }
    if d <= -1 {
      MulLarge(-d, n);
    }
  }

  lemma MulLarge(d: int, n: int)
    requires d >= 1 && n > 0
    ensures d * n >= n
  {
  }

  lemma DivisionUnique(x: int, n: int, q: int, r: int)
    requires 0 <= r < n && x == q * n + r
    ensures x / n == q && x % n == r
  {
    var d := x / n - q;
    assert x == (x / n) * n + x % n;
    assert d * n == (x / n) * n - q * n;
    MultipleInside(d, n);
  }

  /** With retry >= n - 1 and steady origins some attempt is answered exactly when some origin is healthy. */
  lemma SucceedsIffSomeUp(n: nat, up: Health, start: nat, retry: int)
    requires n > 0 && retry >= n - 1 && Steady(up)
    ensures SomeUp(n, up, start, retry) <==> exists origin: nat :: origin < n && up(0, origin)
  {
    if origin: nat :| origin < n && up(0, origin) {
      RotationReaches(start, n, origin);
      var a: nat :| a < n && At(start, a, n) == origin;
      assert up(a, At(start, a, n));
    }
    if SomeUp(n, up, start, retry) {
      var a: nat :| a <= retry && up(a, At(start, a, n));
      assert At(start, a, n) < n && up(0, At(start, a, n));
    }
  }

  /** The conversion to int makes the start negative, and the pull panic, exactly when the counter has passed
      2^63 and its distance to 2^64 is not a multiple of the number of origins. */
  lemma PanicsExactly(counter: int, n: int)
    requires 0 <= counter < TWO_64 && n > 0
    ensures Start(counter, n) < 0 <==> counter >= TWO_63 && (TWO_64 - counter) % n != 0
  {
  }

  // ---- fairness ----

  /** How many of the next `pulls` consecutive pulls on one list of n origins start at `origin`. */
  function Starts(counter: nat, pulls: nat, n: int, origin: nat): nat
    requires n > 0
  {
    if pulls == 0 then 0
    else Starts(counter, pulls - 1, n, origin) + (if (counter + pulls - 1) % n == origin then 1 else 0)
  }

  /** Pulls that start at `origin` are the multiples of n, shifted: counting them is a division. */
  lemma {:induction false} StartsByDivision(counter: nat, pulls: nat, n: int, origin: nat)
    requires origin < n
    ensures Starts(counter, pulls, n, origin) == (counter + pulls + n - 1 - origin) / n - (counter + n - 1 - origin) / n
  {
    if pulls > 0 {
      StartsByDivision(counter, pulls - 1, n, origin);
      var x := counter + pulls - 1;
      StepOver(x, n, origin);
    }
  }

  /** (x + n - 1 - origin) / n grows by one from x to x + 1 exactly when x is congruent to origin. */
  lemma StepOver(x: nat, n: int, origin: nat)
    requires origin < n
    ensures (x + n - origin) / n == (x + n - 1 - origin) / n + (if x % n == origin then 1 else 0)
  {
    var q, r := x / n, x % n;
    assert x == q * n + r;
    StepOverAt(q, r, n, origin);
    assert x + n - origin == q * n + r + n - origin;
  }

  lemma StepOverAt(q: nat, r: nat, n: int, origin: nat)
    requires origin < n && r < n
    ensures (q * n + r + n - origin) / n == (if r >= origin then q + 1 else q)
    ensures (q * n + r + n - 1 - origin) / n == (if r > origin then q + 1 else q)
  {
    assert (q + 1) * n == q * n + n;
    if r >= origin {
      DivisionUnique(q * n + r + n - origin, n, q + 1, r - origin);
    } else {
      DivisionUnique(q * n + r + n - origin, n, q, r + n - origin);
    }
    if r > origin {
      DivisionUnique(q * n + r + n - 1 - origin, n, q + 1, r - 1 - origin);
    } else {
      DivisionUnique(q * n + r + n - 1 - origin, n, q, r + n - 1 - origin);
    }
  }

  /** Adding m advances a quotient by m / n or one more. */
  lemma QuotientAdvance(x: nat, m: nat, n: int)
    requires n > 0
    ensures m / n <= (x + m) / n - x / n <= m / n + 1
  {
    var q, r, p, s := x / n, x % n, m / n, m % n;
    assert x == q * n + r && m == p * n + s;
    if r + s < n {
      assert (q + p) * n == q * n + p * n;
      DivisionUnique(x + m, n, q + p, r + s);
    } else {
      assert (q + p + 1) * n == q * n + p * n + n;
      DivisionUnique(x + m, n, q + p + 1, r + s - n);
    }
  }

  /** Over any number of consecutive pulls on one list, any two origins are started from equally often, give or
      take one. */
  lemma StartsAreFair(counter: nat, pulls: nat, n: int, o1: nat, o2: nat)
    requires o1 < n && o2 < n && counter + pulls <= TWO_63
    ensures -1 <= Starts(counter, pulls, n, o1) - Starts(counter, pulls, n, o2) <= 1
    ensures forall i :: counter <= i < counter + pulls ==> Start(i, n) == i % n
  {
    StartsByDivision(counter, pulls, n, o1);
    StartsByDivision(counter, pulls, n, o2);
    QuotientAdvance(counter + n - 1 - o1, pulls, n);
    QuotientAdvance(counter + n - 1 - o2, pulls, n);
  }
}
