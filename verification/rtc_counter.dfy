/** Reading the running 64-bit RTC counter through two 32-bit registers. The counter may advance by any
    amount between two register reads: `c[k]` is its value at the instant of the k-th read. */
module RtcCounter {

  const WORD: nat := 0x1_0000_0000

  function Low(x: nat): nat
  {
    x % 0x1_0000_0000
  }

  function High(x: nat): nat
  {
    x / 0x1_0000_0000
  }

  /** Time only moves forward, and within 64 bits. */
  ghost predicate Runs(c: seq<nat>)
  {
    && (forall i, j :: 0 <= i <= j < |c| ==> c[i] <= c[j])
    && (forall i :: 0 <= i < |c| ==> High(c[i]) < WORD)
  }

  /** From read `m` on the counter stands still. */
  ghost predicate StillFrom(c: seq<nat>, m: nat)
  {
    forall j :: m <= j < |c| ==> c[j] == c[m]
  }

  /** `Unfinished` when the observed reads end before two rounds agree. */
  datatype Outcome = Unfinished | Value(value: nat, at: nat)

  /** A high word that is the same before and after is the high word in between. */
  lemma HighBetween(a: nat, b: nat, c: nat)
    requires a <= b <= c && High(a) == High(c)
    ensures High(b) == High(a)
  {
  }

  /** The outcome and the number of reads made, from the loop test at read `p` on: two equal low words
      around two equal high words end the call, anything else starts another round. */
  function Reading(c: seq<nat>, p: nat): (r: (Outcome, nat))
    requires 2 <= p <= |c|
    ensures r.1 <= |c|
    decreases |c| - p
  {
    var val, valHi := Low(c[p - 2]), High(c[p - 1]);
    if p == |c| then (Unfinished, p)
    else if Low(c[p]) == val then
      if p + 1 == |c| then (Unfinished, p + 1)
      else if High(c[p + 1]) == valHi then (Value(valHi * 0x1_0000_0000 + val, p), p + 2)
      else if p + 3 >= |c| then (Unfinished, |c|)
      else Reading(c, p + 4)
    else if p + 2 >= |c| then (Unfinished, |c|)
    else Reading(c, p + 3)
  }

  /** The reads of a call decide it: what the registers show afterwards does not matter. */
  lemma {:induction false} ReadsDecide(c: seq<nat>, d: seq<nat>, p: nat)
    requires 2 <= p <= |c| && Reading(c, p).0.Value? && Reading(c, p).1 <= |d|
    requires forall i :: 0 <= i < Reading(c, p).1 ==> c[i] == d[i]
    ensures p <= |d| && Reading(d, p) == Reading(c, p)
    decreases |c| - p
  {
    UsedBeyond(c, p);
    if Low(c[p]) != Low(c[p - 2]) {
      UsedBeyond(c, p + 3);
      ReadsDecide(c, d, p + 3);
    } else if High(c[p + 1]) != High(c[p - 1]) {
      UsedBeyond(c, p + 4);
      ReadsDecide(c, d, p + 4);
    }
  }

  lemma {:induction false} UsedBeyond(c: seq<nat>, p: nat)
    requires 2 <= p <= |c| && Reading(c, p).0.Value?
    ensures p + 2 <= Reading(c, p).1 <= |c|
    decreases |c| - p
  {
    if Low(c[p]) != Low(c[p - 2]) {
      UsedBeyond(c, p + 3);
    } else if High(c[p + 1]) != High(c[p - 1]) {
      UsedBeyond(c, p + 4);
    }
  }

  /** Makes `used` register reads. The value returned is the true counter at the instant of the last
      low-word read, the last read but one; and the call returns once the counter stands still for a
      few reads. */
  method CounterGet(c: seq<nat>, ghost m: nat) returns (r: Outcome, used: nat)
    requires Runs(c)
    ensures used <= |c| && (|c| >= 2 ==> (r, used) == Reading(c, 2))
    ensures r.Value? ==> used >= 4 && r.at == used - 2 && r.value == c[r.at]
    ensures StillFrom(c, m) && |c| >= m + 7 ==> r.Value? && used <= m + 7
  {
    if |c| < 2 {
      return Unfinished, |c|;
    }
    var val, valHi := Low(c[0]), High(c[1]);
    var p := 2;
    while p < |c|
      invariant 2 <= p <= |c|
      invariant val == Low(c[p - 2]) && valHi == High(c[p - 1])
      invariant Reading(c, p) == Reading(c, 2)
      invariant StillFrom(c, m) && |c| >= m + 7 ==> p <= m + 5
    {
      var agree := Low(c[p]) == val;
      p := p + 1;
      if agree {
        if p == |c| {
          return Unfinished, p;
        }
        agree := High(c[p]) == valHi;
        p := p + 1;
        if agree {
          HighBetween(c[p - 3], c[p - 2], c[p - 1]);
          return Value(valHi * 0x1_0000_0000 + val, p - 2), p;
        }
      }
      if p + 1 >= |c| {
        return Unfinished, |c|;
      }
      val, valHi := Low(c[p]), High(c[p + 1]);
      p := p + 2;
    }
    return Unfinished, p;
  }
}
