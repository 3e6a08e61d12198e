/** The round-robin order of guests with tick quanta, as a walk around a circle of ticks. */
module RoundRobin {
  /** Each guest's quantum; a guest with a quantum of zero would never be charged off the processor. */
  predicate Quanta(q: seq<nat>) {
    |q| >= 2 && forall g :: 0 <= g < |q| ==> 1 <= q[g] < 0x1_0000_0000
  }

  /** The running guest and what is left of its quantum. */
  datatype Turn = Turn(guest: nat, left: nat)

  predicate TurnOk(q: seq<nat>, t: Turn) {
    t.guest < |q| && 1 <= t.left <= q[t.guest]
  }

  /** One scheduling event: the running guest is charged a tick, and at the last one
      the next guest gets a full quantum. */
  function Charge(q: seq<nat>, t: Turn): (u: Turn)
    requires Quanta(q) && TurnOk(q, t)
    ensures TurnOk(q, u)
  {
    if t.left > 1 then Turn(t.guest, t.left - 1)
    else var g := if t.guest < |q| - 1 then t.guest + 1 else 0; Turn(g, q[g])
  }

  function Charged(q: seq<nat>, t: Turn, n: nat): (u: Turn)
    requires Quanta(q) && TurnOk(q, t)
    ensures TurnOk(q, u)
    decreases n
  {
    if n == 0 then t else Charged(q, Charge(q, t), n - 1)
  }

  /** How many of `n` events from turn `t` on are charged to guest `g`. */
  function Served(q: seq<nat>, t: Turn, n: nat, g: nat): nat
    requires Quanta(q) && TurnOk(q, t)
    decreases n
  {
    if n == 0 then 0 else (if t.guest == g then 1 else 0) + Served(q, Charge(q, t), n - 1, g)
  }

  // ---------------------------------------------------------------- the circle

  /** Ticks before guest `g` in one round. */
  function Before(q: seq<nat>, g: nat): nat
    requires g <= |q|
  {
    if g == 0 then 0 else Before(q, g - 1) + q[g - 1]
  }

  function Round(q: seq<nat>): nat {
    Before(q, |q|)
  }

  function Position(q: seq<nat>, t: Turn): int
    requires TurnOk(q, t)
  {
    Before(q, t.guest) + q[t.guest] - t.left
  }

  lemma {:induction false} BeforeMonotone(q: seq<nat>, g: nat, h: nat)
    requires g <= h <= |q|
    ensures Before(q, g) <= Before(q, h)
    decreases h - g
  {
    if g < h {
      BeforeMonotone(q, g, h - 1);
    }
  }

  lemma BeforeRound(q: seq<nat>, t: Turn)
    requires Quanta(q) && TurnOk(q, t)
    ensures Before(q, t.guest) <= Position(q, t) < Before(q, t.guest + 1) <= Round(q)
  {
    BeforeMonotone(q, t.guest + 1, |q|);
  }

  /** An event advances one place around the circle. */
  lemma ChargeAdvances(q: seq<nat>, t: Turn)
    requires Quanta(q) && TurnOk(q, t)
    ensures Position(q, Charge(q, t)) == if Position(q, t) == Round(q) - 1 then 0 else Position(q, t) + 1
  {
    BeforeRound(q, t);
    BeforeRound(q, Charge(q, t));
    if t.left == 1 && t.guest < |q| - 1 {
      assert Before(q, t.guest + 1) == Before(q, t.guest) + q[t.guest];
    }
  }

  /** A place on the circle determines the turn. */
  lemma SamePosition(q: seq<nat>, t: Turn, u: Turn)
    requires Quanta(q) && TurnOk(q, t) && TurnOk(q, u) && Position(q, t) == Position(q, u)
    ensures t == u
  {
    BeforeRound(q, t);
    BeforeRound(q, u);
    if t.guest < u.guest {
      BeforeMonotone(q, t.guest + 1, u.guest);
    } else if u.guest < t.guest {
      BeforeMonotone(q, u.guest + 1, t.guest);
    }
  }

  // ---------------------------------------------------------------- one round is fair

  lemma {:induction false} ServedSplit(q: seq<nat>, t: Turn, m: nat, n: nat, g: nat)
    requires Quanta(q) && TurnOk(q, t)
    ensures Served(q, t, m + n, g) == Served(q, t, m, g) + Served(q, Charged(q, t, m), n, g)
    ensures Charged(q, t, m + n) == Charged(q, Charged(q, t, m), n)
    decreases m
  {
    if m > 0 {
      ServedSplit(q, Charge(q, t), m - 1, n, g);
    }
  }

  /** The rest of a quantum goes to its guest, and then it is the next guest's turn. */
  lemma {:induction false} RestOfQuantum(q: seq<nat>, t: Turn, g: nat)
    requires Quanta(q) && TurnOk(q, t)
    ensures Served(q, t, t.left, g) == if t.guest == g then t.left else 0
    ensures Charged(q, t, t.left) == var h := if t.guest < |q| - 1 then t.guest + 1 else 0; Turn(h, q[h])
    decreases t.left
  {
    if t.left > 1 {
      RestOfQuantum(q, Charge(q, t), g);
    }
  }

  /** From the start of a guest's quantum to the end of the round. */
  lemma {:induction false} RestOfRound(q: seq<nat>, h: nat, g: nat)
    requires Quanta(q) && h < |q| && g < |q|
    ensures Before(q, h) <= Round(q)
    ensures Served(q, Turn(h, q[h]), Round(q) - Before(q, h), g) == if h <= g then q[g] else 0
    ensures Charged(q, Turn(h, q[h]), Round(q) - Before(q, h)) == Turn(0, q[0])
    decreases |q| - h
  {
    var t := Turn(h, q[h]);
    BeforeMonotone(q, h + 1, |q|);
    RestOfQuantum(q, t, g);
    if h < |q| - 1 {
      RestOfRound(q, h + 1, g);
      ServedSplit(q, t, q[h], Round(q) - Before(q, h + 1), g);
    }
  }

  lemma {:induction false} Reached(q: seq<nat>, n: nat)
    requires Quanta(q) && n < Round(q)
    ensures Position(q, Charged(q, Turn(0, q[0]), n)) == n
  {
    if n > 0 {
      Reached(q, n - 1);
      ServedSplit(q, Turn(0, q[0]), n - 1, 1, 0);
      assert Charged(q, Charged(q, Turn(0, q[0]), n - 1), 1) == Charge(q, Charged(q, Turn(0, q[0]), n - 1));
      ChargeAdvances(q, Charged(q, Turn(0, q[0]), n - 1));
    }
  }

  /**
   * Any window of as many events as there are ticks in a round charges each guest exactly its quantum,
   * and ends where it began.
   */
  lemma WindowIsFair(q: seq<nat>, t: Turn, g: nat)
    requires Quanta(q) && TurnOk(q, t) && g < |q|
    ensures Served(q, t, Round(q), g) == q[g]
    ensures Charged(q, t, Round(q)) == t
  {
    var start, p, r := Turn(0, q[0]), Position(q, t), Round(q);
    BeforeRound(q, t);
    Reached(q, p);
    SamePosition(q, t, Charged(q, start, p));
    RestOfRound(q, 0, g);
    ServedSplit(q, start, p, r, g);
    ServedSplit(q, start, r, p, g);
  }

  /** Cyclic order, in closed form: after `n` events the turn is `n` places further around the circle,
      some rounds on. */
  lemma {:induction false} PlaceAfter(q: seq<nat>, t: Turn, n: nat) returns (rounds: nat)
    requires Quanta(q) && TurnOk(q, t)
    ensures Position(q, t) + n == rounds * Round(q) + Position(q, Charged(q, t, n))
    ensures 0 <= Position(q, Charged(q, t, n)) < Round(q)
    decreases n
  {
    BeforeRound(q, t);
    rounds := 0;
    if n > 0 {
      ChargeAdvances(q, t);
      rounds := PlaceAfter(q, Charge(q, t), n - 1);
      if Position(q, t) == Round(q) - 1 {
        assert (rounds + 1) * Round(q) == rounds * Round(q) + Round(q);
        rounds := rounds + 1;
      }
    }
  }
}
