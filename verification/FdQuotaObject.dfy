/** The quota's own methods, with other threads writing the cell between any two of their accesses. */
module FdQuotaObject {
  import opened Numbers
  import opened FdQuota

  datatype Reservation = Granted(bytes: nat) | Refused(seen: nat)

  function Last(values: seq<nat>): nat
    requires values != []
  {
    values[|values| - 1]
  }

  /** Nothing but 64-bit numbers. */
  ghost predicate Words(values: seq<nat>) {
    forall k :: 0 <= k < |values| ==> values[k] <= U64_MAX
  }

  /** The history `past` followed by the first `used` writes of the script. */
  function Grown(past: seq<nat>, script: seq<nat>, used: nat): (r: seq<nat>)
    requires used <= |script|
    ensures past != [] ==> r != []
  {
    past + script[..used]
  }

  /** Two stretches of the script in a row. */
  lemma GrownFurther(past: seq<nat>, script: seq<nat>, used: nat, n: nat)
    requires used + n <= |script| && Words(script)
    ensures Grown(Grown(past, script, used), script[used..], n) == Grown(past, script, used + n)
    ensures Words(script[used..])
  {
    assert script[..used] + script[used..][..n] == script[..used + n];
  }

  /** `past` is history: what the cell held first and after each write, whoever made it. What other threads write during a
      call is an input of the call, the script; the call's own accesses may fall anywhere between its writes. */
  class Quota {
    var cell: nat
    const ceiling: nat
    ghost var past: seq<nat>

    constructor (ceiling: nat)
      ensures cell == 0 && this.ceiling == ceiling && past == [0]
    {
      cell := 0;
      this.ceiling := ceiling;
      past := [0];
    }

    /** The cell holds what was written last. */
    ghost predicate Traced()
      reads this
    {
      past != [] && cell == Last(past)
    }

    /** Other threads make the first writes of the script, none, all or any number of them. */
    method Interfere(script: seq<nat>) returns (used: nat)
      requires Traced() && Words(past) && Words(script)
      modifies this
      ensures Traced() && Words(past) && used <= |script|
      ensures past == Grown(old(past), script, used)
    {
      used := 0;
      while used < |script|
        invariant Traced() && Words(past) && used <= |script|
        invariant past == Grown(old(past), script, used)
      {
        if * {
          break;
        }
        cell := script[used];
        past := past + [cell];
        used := used + 1;
      }
    }

    /** `compare_exchange`: stores `next` if the cell still holds `current`; returns what it held. */
    method CompareExchange(current: nat, next: nat) returns (actual: nat)
      requires Traced()
      modifies this
      ensures Traced() && actual == old(cell)
      ensures past == if old(cell) == current then old(past) + [next] else old(past)
    {
      actual := cell;
      if actual == current {
        cell := next;
        past := past + [next];
      }
    }

    /** Reserves `bytes` while others write the first `used` values of the script. A grant makes exactly one write, the last,
        which stays within the ceiling and, under a ceiling below the largest 64-bit number, lifts the cell by exactly
        `bytes` from what it held just before, whoever wrote that; a refusal makes none and reports what the cell held at
        its last access, which left no room. No more than `used + 1` iterations begin. With nobody else writing, the decision
        is therefore by what is in the cell at the call. */
    method TryReserve(bytes: nat, script: seq<nat>) returns (r: Reservation, ghost used: nat, ghost iterations: nat)
      requires Traced() && Words(past) && Words(script) && bytes <= U64_MAX && ceiling <= U64_MAX
      modifies this
      ensures Traced() && Words(past)
      ensures used <= |script| && 1 <= iterations <= used + 1
      ensures var before := Grown(old(past), script, used);
        match r
        case Granted(n) => n == bytes && cell <= ceiling && past == before + [cell]
          && (if ceiling < U64_MAX then cell == Last(before) + bytes else cell == SatAdd(Last(before), bytes))
        case Refused(seen) => seen == Last(before) && ceiling < seen + bytes && past == before
    {
      hide Grown;
      var done := Interfere(script);
      var current := cell;
      iterations := 1;
      while true
        invariant Traced() && Words(past) && current == cell
        invariant done <= |script| && past == Grown(old(past), script, done)
        invariant 1 <= iterations <= done + 1
        decreases |script| - done
      {
        var next := SatAdd(current, bytes);
        if next > ceiling {
          return Refused(current), done, iterations;
        }
        GrownFurther(old(past), script, done, 0);
        var n := Interfere(script[done..]);
        GrownFurther(old(past), script, done, n);
        done := done + n;
        var actual := CompareExchange(current, next);
        if actual == current {
          return Granted(bytes), done, iterations;
        }
        current, iterations := actual, iterations + 1;
      }
    }

    /** Gives back `amount` in two accesses, a load and a subtraction, with others writing before and in between. The one
        write, the last, takes from what the cell held just before the smaller of the amount and what it held at the
        load, `before[at]`: exactly the amount whenever both hold that much. When the cell fell below that in between,
        the subtraction wraps; that this never happens to a handler is what the machine over all interleavings shows. */
    method Release(amount: nat, script: seq<nat>) returns (ghost used: nat, ghost at: nat)
      requires Traced() && Words(past) && Words(script) && amount <= U64_MAX
      modifies this
      ensures Traced() && Words(past) && used <= |script| && |old(past)| - 1 <= at < |old(past)| + used
      ensures var before := Grown(old(past), script, used);
        && past == before + [WrapSub(Last(before), Min(amount, before[at]))]
        && (amount <= before[at] && amount <= Last(before) ==> cell == Last(before) - amount)
      ensures script == [] ==> cell == (if amount <= old(cell) then old(cell) - amount else 0)
    {
      var n := Interfere(script);
      var current := cell;
      at := |past| - 1;
      var m := Interfere(script[n..]);
      used := n + m;
      GrownFurther(old(past), script, n, m);
      cell := WrapSub(cell, Min(amount, current));
      past := past + [cell];
    }
  }
}
