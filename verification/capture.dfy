/** The screenshot naming shared by both `captureAndAttach` helpers: a
    module-level counter that each call bumps by one, and a file name that
    opens with the counter's decimal value and an underscore. */
module Capture {
  import opened JsStrings

  /** A module-level `let screenshotCounter = 0`. */
  class Counter {
    var value: nat

    constructor()
      ensures value == 0
    {
      value := 0;
    }

    /** `screenshotCounter++`, then read the new value. */
    method Next() returns (n: nat)
      modifies this
      ensures value == old(value) + 1 && n == value
    {
      value := value + 1;
      n := value;
    }
  }

  /** `${counter}_${rest}`. */
  function CounterName(counter: nat, rest: string): (name: string)
    ensures |name| == |NatToString(counter)| + 1 + |rest|
    ensures name[..|NatToString(counter)|] == NatToString(counter)
    ensures name[|NatToString(counter)|] == '_'
    ensures name[|NatToString(counter)| + 1..] == rest
  {
    var d := NatToString(counter);
    var name := d + "_" + rest;
    assert name[..|d|] == d && name[|d| + 1..] == rest;
    name
  }

  /** The counter and the rest can be read back from a name, so two calls
      with different counters never produce the same name. */
  lemma CounterNameInjective(a: nat, ra: string, b: nat, rb: string)
    ensures CounterName(a, ra) == CounterName(b, rb) <==> a == b && ra == rb
  {
    if CounterName(a, ra) == CounterName(b, rb) {
      NumeralPrefixInjective(a, b, '_', ra, rb);
    }
  }

  /** The names of calls `start + 1, start + 2, …` with the given rests:
      pairwise distinct, whatever the rests are. */
  function SuccessiveNames(start: nat, rests: seq<string>): (names: seq<string>)
    ensures |names| == |rests|
    ensures forall i :: 0 <= i < |rests| ==> names[i] == CounterName(start + i + 1, rests[i])
    ensures forall i, j :: 0 <= i < j < |names| ==> names[i] != names[j]
  {
    var names := seq(|rests|, i requires 0 <= i < |rests| => CounterName(start + i + 1, rests[i]));
    forall i, j | 0 <= i < j < |names|
      ensures names[i] != names[j]
    {
      CounterNameInjective(start + i + 1, rests[i], start + j + 1, rests[j]);
    }
    names
  }

  /** Calling the helper for each rest in turn on one counter yields
      exactly `SuccessiveNames` and leaves the counter advanced by the
      number of calls. */
  method NameAll(c: Counter, rests: seq<string>) returns (names: seq<string>)
    modifies c
    ensures c.value == old(c.value) + |rests|
    ensures names == SuccessiveNames(old(c.value), rests)
  {
    names := [];
    var i := 0;
    while i < |rests|
      invariant 0 <= i <= |rests|
      invariant c.value == old(c.value) + i
      invariant names == SuccessiveNames(old(c.value), rests[..i])
    {
      var n := c.Next();
      names := names + [CounterName(n, rests[i])];
      assert rests[..i + 1] == rests[..i] + [rests[i]];
      i := i + 1;
    }
    assert rests[..i] == rests;
  }
}
