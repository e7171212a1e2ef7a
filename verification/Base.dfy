/** Small shared types: optional values, results and the SQL `MAX` aggregate. */
module Base {

  datatype Option<+T> = None | Some(value: T)

  datatype Result<+T, +E> = Ok(value: T) | Err(error: E)

  const I64_MAX: int := 0x7fff_ffff_ffff_ffff
  const I64_MIN: int := -0x8000_0000_0000_0000

  predicate IsMax(s: set<nat>, m: nat) { m in s && forall x | x in s :: x <= m }

  lemma MaxWith(rest: set<nat>, x: nat, m: nat)
    requires IsMax(rest, m)
    ensures IsMax(rest + {x}, if m < x then x else m)
  {}

  lemma {:induction false} Maximum(s: set<nat>) returns (m: nat)
    requires s != {}
    ensures IsMax(s, m)
    decreases |s|
  {
    var x :| x in s;
    var rest := s - {x};
    assert s == rest + {x};
    if rest == {} {
      m := x;
    } else {
      m := Maximum(rest);
      MaxWith(rest, x, m);
      m := if m < x then x else m;
    }
  }

  lemma MaxExists(s: set<nat>)
    requires s != {}
    ensures exists m :: IsMax(s, m)
  {
    var m := Maximum(s);
  }

  /** `COALESCE(MAX(column), 0)` over a set of non-negative values. */
  function MaxOf(s: set<nat>): (m: nat)
    ensures s == {} ==> m == 0
    ensures s != {} ==> m in s
    ensures forall x | x in s :: x <= m
  {
    if s == {} then 0
    else
      MaxExists(s);
      var m: nat :| IsMax(s, m);
      m
  }

  /** The states that steps lead through, one moment after the other. */
  function Unroll<C, S>(c: C, steps: seq<S>, now: int, tick: (C, S, int) -> C): (cs: seq<C>)
    ensures |cs| == |steps| + 1 && cs[0] == c
    decreases |steps|
  {
    if steps == [] then [c] else [c] + Unroll(tick(c, steps[0], now), steps[1..], now + 1, tick)
  }

  lemma {:induction false} UnrollNext<C, S>(c: C, steps: seq<S>, now: int, tick: (C, S, int) -> C, i: nat)
    requires i < |steps|
    ensures var cs := Unroll(c, steps, now, tick); cs[i + 1] == tick(cs[i], steps[i], now + i)
    decreases |steps|
  {
    if i > 0 {
      UnrollNext(tick(c, steps[0], now), steps[1..], now + 1, tick, i - 1);
    }
  }
}
