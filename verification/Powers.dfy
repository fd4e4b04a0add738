/** Powers with integer exponents. */
module Powers {
  import opened Words

  function Pow10(k: nat): (r: nat)
    ensures r >= 1
  {
    if k == 0 then 1 else 10 * Pow10(k - 1)
  }

  /** b to the power e; e may be negative. */
  function RPow(b: real, e: int): (r: real)
    requires b > 0.0
    ensures r > 0.0
    decreases if e < 0 then -e else e
  {
    if e == 0 then 1.0
    else if e > 0 then Prod(b, RPow(b, e - 1))
    else RPow(b, e + 1) / b
  }

  // The product as a function of its own keeps nonlinear terms out of the proofs.
  function Prod(a: real, b: real): (r: real)
    ensures a > 0.0 && b > 0.0 ==> r > 0.0
  {
    a * b
  }

  function Times(a: int, b: int): int { a * b }

  function Two(e: int): (r: real) ensures r > 0.0 { RPow(2.0, e) }

  function Ten(e: int): (r: real) ensures r > 0.0 { RPow(10.0, e) }

  lemma RPowStep(b: real, e: int, e1: int)
    requires b > 0.0 && e1 == e + 1
    ensures RPow(b, e1) == Prod(b, RPow(b, e))
  {
    if e < 0 {
      assert RPow(b, e) == RPow(b, e1) / b;
    }
  }

  lemma {:induction false} RPowAdd(b: real, x: int, y: int)
    requires b > 0.0
    ensures RPow(b, x + y) == Prod(RPow(b, x), RPow(b, y))
    decreases if y < 0 then -y else y
  {
    if y == 0 {
      assert RPow(b, x + 0) == Prod(RPow(b, x), 1.0);
    } else {
      hide RPow, Prod;
      var z := if y > 0 then y - 1 else y + 1;
      RPowAdd(b, x, z);
      var p, q := RPow(b, x), RPow(b, y);
      if y > 0 {
        RPowStep(b, x + z, x + y);
        RPowStep(b, z, y);
        Regroup(p, b, RPow(b, z));
      } else {
        RPowStep(b, x + y, x + z);
        RPowStep(b, y, z);
        Regroup(p, b, q);
        Cancel(b, RPow(b, x + y), Prod(p, q));
      }
    }
  }

  lemma Regroup(x: real, b: real, z: real)
    ensures Prod(x, Prod(b, z)) == Prod(b, Prod(x, z))
  {
  }

  lemma Cancel(b: real, x: real, y: real)
    requires b > 0.0 && Prod(b, x) == Prod(b, y)
    ensures x == y
  {
    assert b * (x - y) == 0.0;
  }

  lemma {:induction false} TwoIsPow2(k: nat)
    ensures Two(k) == Pow2(k) as real
  {
    if k > 0 {
      TwoIsPow2(k - 1);
    }
  }

  lemma {:induction false} TenIsPow10(k: nat)
    ensures Ten(k) == Pow10(k) as real
  {
    if k > 0 {
      TenIsPow10(k - 1);
    }
  }

  lemma {:induction false} Pow10Add(a: nat, b: nat)
    ensures Pow10(a + b) == Pow10(a) * Pow10(b)
  {
    if a > 0 {
      Pow10Add(a - 1, b);
      assert a + b - 1 == (a - 1) + b;
    }
  }
}
