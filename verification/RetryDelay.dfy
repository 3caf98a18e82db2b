/** The delay before a failed delivery may be retried: doubling, jittered by a hash of the event, capped. */
module RetryDelay {

  // Durations in nanoseconds.
  const SECOND := 1_000_000_000
  const CAP := 300 * SECOND

  function XorOctet(a: nat, b: nat): nat
    requires a < 256 && b < 256
  {
    (a as bv8 ^ b as bv8) as int
  }

  /** One round of FNV-1a: the octet is xored into the lowest one, and the product wraps around at 32 bits. */
  function Round(hash: nat, octet: nat): nat
    requires octet < 256
  {
    (hash / 256 * 256 + XorOctet(hash % 256, octet)) * 16777619 % 0x1_0000_0000
  }

  function Octet(c: char): (o: nat)
    ensures o < 256
  {
    c as int % 256
  }

  function Fnv(text: string): nat {
    if text == [] then 2166136261 else Round(Fnv(text[..|text| - 1]), Octet(text[|text| - 1]))
  }

  function Doubled(n: nat): nat {
    if n == 0 then 1 else 2 * Doubled(n - 1)
  }

  function Clamped(attempt: int): (k: nat)
    ensures 1 <= k <= 10
  {
    if attempt < 1 then 1 else if attempt > 10 then 10 else attempt
  }

  function BaseDelay(attempt: int): int {
    var base := SECOND * Doubled(Clamped(attempt) - 1);
    if base > CAP then CAP else base
  }

  /** Up to half of the base, decided by the hash. */
  function Jitter(hash: int, base: int): int {
    hash % 501 * base / 1000
  }

  function Spread(hash: int, base: int): int {
    var delay := base * 3 / 4 + Jitter(hash, base);
    if delay > CAP then CAP else delay
  }

  function DelayFor(attempt: int, hash: int): int {
    Spread(hash, BaseDelay(attempt))
  }

  /** The hash loop. */
  method Hash(value: string) returns (hash: nat)
    ensures hash == Fnv(value)
  {
    hash := 2166136261;
    for i := 0 to |value|
      invariant hash == Fnv(value[..i])
    {
      assert value[..i + 1][..i] == value[..i];
      hash := Round(hash, Octet(value[i]));
    }
    assert value[..|value|] == value;
  }

  method RetryDelay(attempt: int, table: string, id: string) returns (delay: int)
    ensures delay == DelayFor(attempt, Fnv(table + "\0" + id))
  {
    var tries := attempt;
    if tries < 1 {
      tries := 1;
    }
    if tries > 10 {
      tries := 10;
    }
    var base := SECOND * Doubled(tries - 1);
    if base > CAP {
      base := CAP;
    }
    var hash := Hash(table + "\0" + id);
    delay := Spread(hash, base);
  }

  lemma {:induction false} DoubledGrows(a: nat, b: nat)
    requires a <= b
    ensures 1 <= Doubled(a) <= Doubled(b)
    decreases b
  {
    if a < b {
      DoubledGrows(a, b - 1);
    } else if a > 0 {
      DoubledGrows(a - 1, a - 1);
    }
  }

  lemma BaseGrows(a: int, b: int)
    requires a <= b
    ensures SECOND <= BaseDelay(a) <= BaseDelay(b) <= CAP
  {
    DoubledGrows(Clamped(a) - 1, Clamped(b) - 1);
  }

  lemma BaseDivides(attempt: int)
    ensures BaseDelay(attempt) * 3 / 4 * 4 == BaseDelay(attempt) * 3
  {
    var quarter := SECOND / 4 * Doubled(Clamped(attempt) - 1);
    ThreeQuarters(quarter);
    ThreeQuarters(CAP / 4);
  }

  lemma ThreeQuarters(x: int)
    ensures 4 * x * 3 / 4 * 4 == 4 * x * 3
  {
    assert 4 * x * 3 / 4 == 3 * x;
  }

  lemma JitterGrows(h: int, a: int, b: int)
    requires 0 <= h <= 500 && 0 <= a <= b
    ensures 0 <= h * a / 1000 <= h * b / 1000 && 2 * (h * b / 1000) <= b
  {
    assert h * a <= h * b;
    assert h * b <= 500 * b;
  }

  lemma RoundVectorA()
    ensures Round(0x811c9dc5, 97) == 0xe40c292c
  {
    assert 0x811c9dc5 % 256 == 197 && XorOctet(197, 97) == 164;
  }

  lemma RoundVector1()
    ensures Round(0x811c9dc5, 102) == 0xe30c2799
  {
    assert 0x811c9dc5 % 256 == 197 && XorOctet(197, 102) == 163;
  }

  lemma RoundVector2()
    ensures Round(0xe30c2799, 111) == 0x6222e842
  {
    assert 0xe30c2799 % 256 == 153 && XorOctet(153, 111) == 246;
  }

  /** Published test vectors of 32-bit FNV-1a. */
  lemma FnvVectors()
    ensures Fnv("") == 0x811c9dc5
    ensures Fnv("a") == 0xe40c292c
    ensures Fnv("fo") == 0x6222e842
  {
    assert "a"[..0] == "";
    RoundVectorA();
    assert "f"[..0] == "";
    RoundVector1();
    assert "fo"[..1] == "f";
    RoundVector2();
  }

  /** The delay in closed form: doubled seconds times 750 to 1250 thousandths, by the hash, and at most five minutes. */
  lemma DelayExactly(attempt: int, hash: int)
    requires 1 <= attempt <= 9
    ensures DelayFor(attempt, hash) == Smaller(CAP, Doubled(attempt - 1) * (750 + hash % 501) * 1_000_000)
  {
    BaseUncapped(attempt);
    SpreadOf(hash, Doubled(attempt - 1));
  }

  lemma SpreadOf(hash: int, d: nat)
    ensures Spread(hash, SECOND * d) == Smaller(CAP, d * (750 + hash % 501) * 1_000_000)
  {
    JitterOf(hash, d);
    ThreeQuarters(SECOND / 4 * d);
    TimesSum(d, hash % 501);
  }

  lemma TimesSum(d: int, h: int)
    ensures d * (750 + h) * 1_000_000 == 750_000_000 * d + h * (1_000_000 * d)
  {
    assert d * (750 + h) == 750 * d + h * d;
    assert h * (1_000_000 * d) == 1_000_000 * (h * d);
  }

  lemma JitterOf(hash: int, d: int)
    ensures Jitter(hash, SECOND * d) == hash % 501 * (1_000_000 * d)
  {
    var h := hash % 501;
    assert h * (SECOND * d) == 1000 * (h * (1_000_000 * d)) by {
      assert SECOND * d == 1000 * (1_000_000 * d);
      Swap(h, 1000, 1_000_000 * d);
    }
    ThousandthOf(h * (1_000_000 * d));
  }

  lemma Swap(a: int, b: int, c: int)
    ensures a * (b * c) == b * (a * c)
  {
  }

  function Smaller(a: int, b: int): int {
    if a <= b then a else b
  }

  lemma ThousandthOf(x: int)
    ensures 1000 * x / 1000 == x
  {
  }

  lemma BaseUncapped(attempt: int)
    requires 1 <= attempt <= 9
    ensures BaseDelay(attempt) == SECOND * Doubled(attempt - 1)
  {
    DoubledGrows(attempt - 1, 8);
    assert Doubled(4) == 16 && Doubled(8) == 256 by {
      assert Doubled(2) == 4;
      assert Doubled(6) == 64;
    }
  }

  /** From the tenth attempt on the base is the cap itself. */
  lemma LateDelays(attempt: int, hash: int)
    requires attempt >= 10
    ensures DelayFor(attempt, hash) == Smaller(CAP, 300 * (750 + hash % 501) * 1_000_000)
  {
    assert Doubled(9) == 512 by {
      assert Doubled(3) == 8;
      assert Doubled(6) == 64;
    }
    assert BaseDelay(attempt) == SECOND * 300;
    SpreadOf(hash, 300);
  }

  /** Never more than five minutes; within a quarter of the doubled base, or cut at the cap. */
  lemma DelayBounds(attempt: int, hash: int)
    ensures var base, d := BaseDelay(attempt), DelayFor(attempt, hash);
            3 * base <= 4 * d <= 5 * base && d <= CAP && SECOND <= base <= CAP
  {
    BaseGrows(attempt, attempt);
    BaseDivides(attempt);
    JitterGrows(hash % 501, BaseDelay(attempt), BaseDelay(attempt));
  }

  /** For one event the delay never shrinks from one attempt to the next. */
  lemma DelayGrows(a: int, b: int, hash: int)
    requires a <= b
    ensures DelayFor(a, hash) <= DelayFor(b, hash)
  {
    BaseGrows(a, b);
    JitterGrows(hash % 501, BaseDelay(a), BaseDelay(b));
  }
}
