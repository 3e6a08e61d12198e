/** The spin lock over load-exclusive and store-exclusive, for any number of CPUs and
    any interleaving of their steps. */
module Spinlock {
  /**
   * Where a CPU is in spin_lock or spin_trylock: not in it, before the load, or between the load and the
   * conditional store; or between lock and unlock.
   */
  datatype Phase = Outside | Entering(once: bool) | Loaded(once: bool, tmp: nat) | Inside

  /** The lock word, and per CPU its phase and whether its exclusive monitor still holds the word. */
  datatype State = State(lock: nat, phase: seq<Phase>, exclusive: seq<bool>)

  datatype Step =
    | Enter(cpu: nat, once: bool)
    | Ldrex(cpu: nat)
    | Strexeq(cpu: nat)
    | Unlock(cpu: nat, keeps: bool)
    | Lose(cpu: nat)

  predicate Shaped(s: State) {
    |s.phase| == |s.exclusive|
  }

  /** A CPU only takes the step its program is at; a monitor may be lost at any time. */
  predicate Enabled(s: State, e: Step) {
    && Shaped(s) && e.cpu < |s.phase|
    && match e
       case Enter(c, _) => s.phase[c].Outside?
       case Ldrex(c) => s.phase[c].Entering?
       case Strexeq(c) => s.phase[c].Loaded?
       case Unlock(c, _) => s.phase[c].Inside?
       case Lose(c) => true
  }

  /** A CPU that fails goes back to the load, or gives up if it tries only once. */
  function Failed(once: bool): Phase {
    if once then Outside else Entering(false)
  }

  /** A store to the word takes it from the monitors of all other CPUs. */
  function TakenFromOthers(exclusive: seq<bool>, c: nat, own: bool): seq<bool> {
    seq(|exclusive|, d requires 0 <= d < |exclusive| => d == c && own)
  }

  function Next(s: State, e: Step): (t: State)
    requires Enabled(s, e)
    ensures Shaped(t) && |t.phase| == |s.phase|
  {
    match e
    case Enter(c, once) => s.(phase := s.phase[c := Entering(once)])
    case Ldrex(c) =>
      s.(phase := s.phase[c := Loaded(s.phase[c].once, s.lock)], exclusive := s.exclusive[c := true])
    case Strexeq(c) =>
      var once := s.phase[c].once;
      if s.phase[c].tmp != 0 then s.(phase := s.phase[c := Failed(once)])
      else if !s.exclusive[c] then s.(phase := s.phase[c := Failed(once)])
      else State(1, s.phase[c := Inside], TakenFromOthers(s.exclusive, c, false))
    case Unlock(c, keeps) =>
      State(0, s.phase[c := Outside], TakenFromOthers(s.exclusive, c, keeps && s.exclusive[c]))
    case Lose(c) => s.(exclusive := s.exclusive[c := false])
  }

  function Start(cpus: nat): State {
    State(0, seq(cpus, c => Outside), seq(cpus, c => false))
  }

  // ---------------------------------------------------------------- mutual exclusion

  /** At most one CPU holds the lock, and the lock word is nonzero exactly while one does. */
  ghost predicate Exclusive(s: State) {
    && (forall c, d :: 0 <= c < d < |s.phase| ==> !(s.phase[c].Inside? && s.phase[d].Inside?))
    && (s.lock != 0 <==> exists c :: 0 <= c < |s.phase| && s.phase[c].Inside?)
  }

  /** A CPU that read zero and still has its monitor may trust what it read. */
  ghost predicate Trusted(s: State)
    requires Shaped(s)
  {
    forall c :: 0 <= c < |s.phase| && s.phase[c].Loaded? && s.phase[c].tmp == 0 && s.exclusive[c] ==> s.lock == 0
  }

  lemma NextKeeps(s: State, e: Step)
    requires Enabled(s, e) && Exclusive(s) && Trusted(s)
    ensures Exclusive(Next(s, e)) && Trusted(Next(s, e))
  {
    var t := Next(s, e);
    forall d | 0 <= d < |s.phase| && d != e.cpu
      ensures t.phase[d] == s.phase[d]
    {
    }
    if t.lock == s.lock {
      assert t.phase[e.cpu].Inside? <==> s.phase[e.cpu].Inside?;
      if c :| 0 <= c < |s.phase| && s.phase[c].Inside? {
        assert t.phase[c].Inside?;
      }
    } else {
      assert e.Strexeq? || e.Unlock?;
      if e.Strexeq? {
        assert t.phase[e.cpu].Inside?;
      }
    }
  }

  ghost predicate Runs(s: State, steps: seq<Step>)
    decreases |steps|
  {
    steps == [] || (Enabled(s, steps[0]) && Runs(Next(s, steps[0]), steps[1..]))
  }

  function After(s: State, steps: seq<Step>): (t: State)
    requires Runs(s, steps)
    ensures |t.phase| == |s.phase|
    decreases |steps|
  {
    if steps == [] then s else After(Next(s, steps[0]), steps[1..])
  }

  lemma {:induction false} RunKeeps(s: State, steps: seq<Step>)
    requires Shaped(s) && Exclusive(s) && Trusted(s) && Runs(s, steps)
    ensures var t := After(s, steps); Shaped(t) && Exclusive(t) && Trusted(t)
    decreases |steps|
  {
    if steps != [] {
      NextKeeps(s, steps[0]);
      RunKeeps(Next(s, steps[0]), steps[1..]);
    }
  }

  /** From the unlocked state, no run of any number of CPUs ever has two of them between lock and unlock. */
  lemma MutualExclusion(cpus: nat, steps: seq<Step>)
    requires Runs(Start(cpus), steps)
    ensures Exclusive(After(Start(cpus), steps))
  {
    RunKeeps(Start(cpus), steps);
  }

  // ---------------------------------------------------------------- who gets in

  /** In `spin_lock`, before or after the load. */
  predicate Spinning(p: Phase) {
    (p.Entering? || p.Loaded?) && !p.once
  }

  /** After one more step a CPU in `spin_lock` is still in it, or has the lock. */
  lemma KeepsSpinning(s: State, e: Step, c: nat)
    requires Enabled(s, e) && c < |s.phase| && Spinning(s.phase[c])
    ensures Spinning(Next(s, e).phase[c]) || Next(s, e).phase[c].Inside?
  {
  }

  /** A CPU that entered `spin_lock` stays in it until it has had the lock, in every run: it never gives up. */
  lemma {:induction false} LockNeverGivesUp(s: State, steps: seq<Step>, c: nat) returns (k: nat)
    requires Shaped(s) && Runs(s, steps) && c < |s.phase| && Spinning(s.phase[c])
    ensures k <= |steps| && Runs(s, steps[..k])
    ensures Spinning(After(s, steps).phase[c]) || After(s, steps[..k]).phase[c].Inside?
    decreases |steps|
  {
    k := 0;
    assert steps[..0] == [];
    if steps != [] {
      var e, t := steps[0], Next(s, steps[0]);
      KeepsSpinning(s, e, c);
      var j := 0;
      if Spinning(t.phase[c]) {
        j := LockNeverGivesUp(t, steps[1..], c);
      }
      k := j + 1;
      assert steps[1..][..j] == steps[..k][1..];
      assert steps[1..][..0] == [];
    }
  }

  /** Entering with `once` clear is entering `spin_lock`. With it set, the conditional store ends the try either way. */
  lemma TryEnds(s: State, c: nat, once: bool)
    requires Shaped(s) && c < |s.phase|
    ensures s.phase[c].Outside? ==> (Spinning(Next(s, Enter(c, once)).phase[c]) <==> !once)
    ensures s.phase[c].Loaded? && s.phase[c].once ==>
      Next(s, Strexeq(c)).phase[c].Inside? || Next(s, Strexeq(c)).phase[c].Outside?
  {
  }

  /** A single try with no step of another CPU in between gets the lock exactly when the word was zero. */
  lemma UndisturbedTry(s: State, c: nat)
    requires Shaped(s) && c < |s.phase| && s.phase[c].Outside?
    ensures Runs(s, [Enter(c, true), Ldrex(c), Strexeq(c)])
    ensures var t := After(s, [Enter(c, true), Ldrex(c), Strexeq(c)]);
      && (t.phase[c].Inside? <==> s.lock == 0) && (t.phase[c].Outside? <==> s.lock != 0)
      && t.lock == if s.lock == 0 then 1 else s.lock
  {
    var steps := [Enter(c, true), Ldrex(c), Strexeq(c)];
    var s1 := Next(s, steps[0]);
    var s2 := Next(s1, Ldrex(c));
    var s3 := Next(s2, Strexeq(c));
    assert steps[1..] == [Ldrex(c), Strexeq(c)] && steps[1..][1..] == [Strexeq(c)] && [Strexeq(c)][1..] == [];
    assert After(s3, []) == s3;
    assert Runs(s2, [Strexeq(c)]) && After(s2, [Strexeq(c)]) == s3;
    assert Runs(s1, steps[1..]) && After(s1, steps[1..]) == s3;
  }
}
