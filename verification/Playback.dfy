// The playback state that a session mirrors from the device: direction and speed.

module Playback {
  datatype Playback = Playback(backward: bool, speed: real)

  datatype Kind = Slow | Normal | Fast

  // A direction or speed command and whether the device accepted it.
  datatype Command = Turn(accepted: bool) | Speed(kind: Kind, accepted: bool)

  // The factor of the slow command, as the code computes it: the quotient of the integers
  // 1 and 2. The comment beside it asks for a halved rate.
  const SLOW_FACTOR: real := (1 / 2) as real
  const ONE_HALF: real := 0.5

  function Issue(p: Playback, c: Command, slow: real): Playback {
    match c
    case Turn(accepted) => if accepted then p.(backward := !p.backward) else p
    case Speed(_, false) => p
    case Speed(Fast, true) => p.(speed := 2.0 * p.speed)
    case Speed(Slow, true) => p.(speed := slow * p.speed)
    case Speed(Normal, true) => p.(speed := 1.0)
  }

  function Play(p: Playback, cs: seq<Command>, slow: real): Playback {
    if cs == [] then p else Issue(Play(p, cs[..|cs| - 1], slow), cs[|cs| - 1], slow)
  }

  function Turns(cs: seq<Command>): nat {
    if cs == [] then 0 else Turns(cs[..|cs| - 1]) + if cs[|cs| - 1] == Turn(true) then 1 else 0
  }

  // Accepted commands of a kind since the last accepted return to normal speed.
  function Since(cs: seq<Command>, kind: Kind): nat {
    if cs == [] || cs[|cs| - 1] == Speed(Normal, true) then 0
    else Since(cs[..|cs| - 1], kind) + if cs[|cs| - 1] == Speed(kind, true) then 1 else 0
  }

  function PowerOfTwo(n: int): real
    decreases if n < 0 then -n else n
  {
    if n == 0 then 1.0
    else if n > 0 then 2.0 * PowerOfTwo(n - 1)
    else PowerOfTwo(n + 1) / 2.0
  }

  lemma {:induction false} PowerPositive(n: int)
    ensures PowerOfTwo(n) > 0.0
    decreases if n < 0 then -n else n
  {
    if n > 0 {
      PowerPositive(n - 1);
    } else if n < 0 {
      PowerPositive(n + 1);
    }
  }

  lemma PowerNext(n: int)
    ensures PowerOfTwo(n + 1) == 2.0 * PowerOfTwo(n)
    ensures PowerOfTwo(n - 1) == 0.5 * PowerOfTwo(n)
  {
  }

  // The direction is the parity of the accepted turns, over every run of accepted and
  // refused commands.
  lemma {:induction false} DirectionIsParity(p: Playback, cs: seq<Command>, slow: real)
    ensures Play(p, cs, slow).backward == (p.backward != (Turns(cs) % 2 == 1))
  {
    if cs != [] {
      DirectionIsParity(p, cs[..|cs| - 1], slow);
    }
  }

  // The speed as the comment intends it: with a factor of one half, it is two to the
  // accepted fast minus accepted slow commands since the last return to normal.
  lemma {:induction false} IntendedSpeed(p: Playback, cs: seq<Command>)
    requires p.speed == 1.0
    ensures Play(p, cs, ONE_HALF).speed == PowerOfTwo(Since(cs, Fast) - Since(cs, Slow))
  {
    if cs != [] {
      IntendedSpeed(p, cs[..|cs| - 1]);
      PowerNext(Since(cs[..|cs| - 1], Fast) - Since(cs[..|cs| - 1], Slow));
    }
  }

  // The speed the code really has: two to the accepted fast commands until a slow command
  // is accepted, and 0 from then until the next return to normal.
  lemma {:induction false} ActualSpeed(p: Playback, cs: seq<Command>)
    requires p.speed == 1.0
    ensures Play(p, cs, SLOW_FACTOR).speed == if Since(cs, Slow) == 0 then PowerOfTwo(Since(cs, Fast)) else 0.0
  {
    if cs != [] {
      ActualSpeed(p, cs[..|cs| - 1]);
      assert SLOW_FACTOR == 0.0;
    }
  }

  // So the code keeps the intended speed exactly while no slow command has been accepted
  // since the last return to normal.
  lemma SpeedAsIntendedIff(p: Playback, cs: seq<Command>)
    requires p.speed == 1.0
    ensures Play(p, cs, SLOW_FACTOR).speed == PowerOfTwo(Since(cs, Fast) - Since(cs, Slow)) <==> Since(cs, Slow) == 0
  {
    ActualSpeed(p, cs);
    PowerPositive(Since(cs, Fast) - Since(cs, Slow));
  }

  // One accepted slow command: the mirrored speed is 0, not one half.
  lemma SlowOnceGivesZero()
    ensures var p, cs := Playback(false, 1.0), [Speed(Slow, true)];
            Play(p, cs, SLOW_FACTOR).speed == 0.0 && PowerOfTwo(Since(cs, Fast) - Since(cs, Slow)) == 0.5
  {
    var cs := [Speed(Slow, true)];
    assert cs[..0] == [];
    assert PowerOfTwo(-1) == PowerOfTwo(0) / 2.0;
  }
}
