/** Types shared by every component of the model. */
module Base {
  datatype Option<+T> = None | Some(value: T)

  // UUIDs are opaque, distinguishable values.
  type Uuid = nat

  // Instants, in microseconds of the database clock.
  type Time = int

  // Monetary amounts, in ten-thousandths of a currency unit: numeric(14,4).
  type Amount = int

  // coefficient / 10^scale
  datatype Decimal = Decimal(coefficient: int, scale: nat)

  function Min(a: int, b: int): int {
    if a <= b then a else b
  }

  function Max(a: int, b: int): int {
    if a <= b then b else a
  }

  /** A nonce nobody has drawn before. */
  method NewLeaseNonce(used: set<Uuid>) returns (nonce: Uuid)
    ensures nonce !in used
  {
    nonce := 0;
    var rest := used;
    while rest != {}
      invariant rest <= used && forall n | n in used && n !in rest :: n < nonce
      decreases |rest|
    {
      var n :| n in rest;
      nonce := Max(nonce, n + 1);
      rest := rest - {n};
    }
  }
}
