/** Types shared by every module of the model. */
module Common {
  /** Solana slot numbers and block heights; `u64` in the program, unbounded here. */
  type Slot = nat

  type Byte = b: int | 0 <= b < 256

  const TWO_32: int := 0x1_0000_0000
  const TWO_63: int := 0x8000_0000_0000_0000
  const TWO_64: int := 0x1_0000_0000_0000_0000

  datatype Option<+T> = None | Some(value: T)

  /** `as u64` of a signed number; values outside `i64` do not occur. */
  function ToUnsigned(t: int): nat {
    if 0 <= t then t else if 0 <= t + TWO_64 then t + TWO_64 else 0
  }

  /** The first key of an ordered map. */
  lemma {:induction false} Least(keys: set<Slot>) returns (least: Slot)
    requires keys != {}
    ensures least in keys && forall k :: k in keys ==> least <= k
    decreases |keys|
  {
    least :| least in keys;
    var rest := keys - {least};
    assert forall k :: k in keys ==> k == least || k in rest;
    if rest != {} {
      var other := Least(rest);
      if other < least {
        least := other;
      }
    }
  }
}

/** Positions around a ring of `n` cells. */
module Circular {
  /** The position `k` steps after `from`. */
  function Ahead(from: nat, k: nat, n: nat): (r: nat)
    requires from < n && k <= n
    ensures r < n
  {
    if from + k < n then from + k else from + k - n
  }

  /** How many steps lead from `from` to `to`. */
  function Distance(from: nat, to: nat, n: nat): (r: nat)
    requires from < n && to < n
    ensures r < n && Ahead(from, r, n) == to
  {
    if from <= to then to - from else to - from + n
  }

  /** One step back, as the program writes it: `checked_sub(1).unwrap_or(n - 1)`. */
  function Before(p: nat, n: nat): (r: nat)
    requires p < n
    ensures r < n && Ahead(r, 1, n) == p
  {
    if p == 0 then n - 1 else p - 1
  }

  lemma WrapMod(x: nat, n: nat)
    requires 0 < n && x <= n
    ensures x % n == if x < n then x else x - n
  {
  }

  /** `(from + d) % n` is `d % n` steps ahead, whatever `d`. */
  lemma {:induction false} AheadMod(from: nat, d: nat, n: nat)
    requires from < n
    ensures (from + d) % n == Ahead(from, d % n, n)
    decreases d
  {
    if d < n {
      if from + d < n {
        ModUnique(from + d, n, 0, from + d);
      } else {
        ModUnique(from + d, n, 1, from + d - n);
      }
      ModUnique(d, n, 0, d);
    } else {
      AheadMod(from, d - n, n);
      DropTurn(from + d, n);
      DropTurn(d, n);
    }
  }

  lemma DropTurn(x: nat, n: nat)
    requires 0 < n <= x
    ensures x % n == (x - n) % n
  {
    var q, r := (x - n) / n, (x - n) % n;
    assert x == (q + 1) * n + r;
    ModUnique(x, n, q + 1, r);
  }

  lemma ModUnique(x: nat, n: nat, q: nat, r: nat)
    requires 0 < n && r < n && x == q * n + r
    ensures x % n == r
  {
    var p, m := x / n, x % n;
    assert x == p * n + m;
    if q < p {
      MulGap(q, p, n);
    } else if p < q {
      MulGap(p, q, n);
    }
  }

  lemma {:induction false} MulGap(a: nat, b: nat, n: nat)
    requires a < b
    ensures a * n + n <= b * n
    decreases b
  {
    assert b * n == (b - 1) * n + n;
    if a + 1 < b {
      MulGap(a, b - 1, n);
    }
  }
}
