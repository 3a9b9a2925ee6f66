/**
 * Signed phase currents. The meter reports each phase current as a
 * magnitude; after decoding, each phase whose current `i<phase>` is present
 * is multiplied by -1 when the phase's net real power
 * `p<phase>consume - p<phase>supply` is negative (the phase feeds into the
 * grid) and by 1 otherwise. Absent powers count as 0.0. A phase whose
 * arithmetic fails (a string where a number is expected) is left as it is
 * and the other phases are still processed.
 */
module Currents {
  import opened Wrappers
  import opened Records

  /** `f"{prefix}{phase}{suffix}"` for a phase 1..3. */
  function PhaseKey(prefix: string, phase: nat, suffix: string): (k: string)
    requires 1 <= phase <= 3
    ensures |k| == |prefix| + 1 + |suffix|
  {
    prefix + [('0' as int + phase) as char] + suffix
  }

  function CurrentKey(phase: nat): string
    requires 1 <= phase <= 3
  {
    PhaseKey("i", phase, "")
  }

  function ConsumeKey(phase: nat): string
    requires 1 <= phase <= 3
  {
    PhaseKey("p", phase, "consume")
  }

  function SupplyKey(phase: nat): string
    requires 1 <= phase <= 3
  {
    PhaseKey("p", phase, "supply")
  }

  predicate IsCurrentKey(k: string) {
    k == CurrentKey(1) || k == CurrentKey(2) || k == CurrentKey(3)
  }

  /** The current keys of different phases differ, and none is a power key. */
  lemma PhaseKeysDistinct(p: nat, q: nat)
    requires 1 <= p <= 3 && 1 <= q <= 3
    ensures p != q ==> CurrentKey(p) != CurrentKey(q)
    ensures CurrentKey(p) != ConsumeKey(q) && CurrentKey(p) != SupplyKey(q)
  {
    if p != q {
      assert CurrentKey(p)[1] != CurrentKey(q)[1];
    }
  }

  /** A value as an operand of `-`: numbers take part, a string raises TypeError (None). */
  function AsNumber(v: Value): (r: Option<real>)
    ensures r.None? <==> v.Str?
  {
    match v
    case Int(i) => Some(i as real)
    case Real(x) => Some(x)
    case Str(_) => None
  }

  /**
   * `p_cons - p_supp` for a phase, with an absent power read as 0.0; None
   * when either operand is a string.
   */
  function NetPower(values: Record, phase: nat): (r: Option<real>)
    requires 1 <= phase <= 3
  {
    var consume := AsNumber(Get(values, ConsumeKey(phase), Real(0.0)));
    var supply := AsNumber(Get(values, SupplyKey(phase), Real(0.0)));
    if consume.None? || supply.None? then None else Some(consume.value - supply.value)
  }

  /**
   * `sign * v`: a number is multiplied; a string is kept by 1 and, as
   * Python repeats a string -1 times, emptied by -1.
   */
  function Scale(sign: int, v: Value): (r: Value)
    requires sign == 1 || sign == -1
    ensures sign == 1 ==> r == v
    ensures r.Int? == v.Int? && r.Real? == v.Real?
  {
    match v
    case Int(i) => Int(sign * i)
    case Real(x) =>
      assert sign == 1 ==> sign as real * x == x;
      Real(sign as real * x)
    case Str(s) => if sign == 1 then v else Str("")
  }

  function SignOf(net: real): int {
    if net < 0.0 then -1 else 1
  }

  /** One iteration of the phase loop. */
  function SignPhase(values: Record, phase: nat): (r: Record)
    requires 1 <= phase <= 3
    ensures r.Keys == values.Keys
    ensures forall k :: k in values && k != CurrentKey(phase) ==> r[k] == values[k]
  {
    var key := CurrentKey(phase);
    if key !in values then values
    else match NetPower(values, phase)
      case None => values
      case Some(net) => values[key := Scale(SignOf(net), values[key])]
  }

  /** The record after the loop has processed phases 1..n. */
  function SignedCurrentsThrough(values: Record, n: nat): (r: Record)
    requires n <= 3
    decreases n
  {
    if n == 0 then values else SignPhase(SignedCurrentsThrough(values, n - 1), n)
  }

  /** `_derive_signed_currents` as a function of the record it receives. */
  function SignedCurrents(values: Record): (r: Record)
  {
    SignedCurrentsThrough(values, 3)
  }

  /** The pass keeps every key and changes no value other than i1, i2 and i3. */
  lemma {:induction false} SignedCurrentsFrame(values: Record, n: nat)
    requires n <= 3
    ensures SignedCurrentsThrough(values, n).Keys == values.Keys
    ensures forall k :: k in values && !IsCurrentKey(k) ==> SignedCurrentsThrough(values, n)[k] == values[k]
  {
    if n > 0 {
      SignedCurrentsFrame(values, n - 1);
    }
  }

  /** Phases after `n` have not been touched yet, and the powers of every phase are never touched. */
  lemma {:induction false} LaterPhasesUntouched(values: Record, n: nat, phase: nat)
    requires n <= 3 && 1 <= phase <= 3
    ensures var r := SignedCurrentsThrough(values, n);
      && NetPower(r, phase) == NetPower(values, phase)
      && (n < phase ==> Get(r, CurrentKey(phase), Str("")) == Get(values, CurrentKey(phase), Str("")))
  {
    SignedCurrentsFrame(values, n);
    var r := SignedCurrentsThrough(values, n);
    forall q | 1 <= q <= 3 ensures CurrentKey(q) != ConsumeKey(phase) && CurrentKey(q) != SupplyKey(phase) {
      PhaseKeysDistinct(q, phase);
    }
    assert Get(r, ConsumeKey(phase), Real(0.0)) == Get(values, ConsumeKey(phase), Real(0.0));
    assert Get(r, SupplyKey(phase), Real(0.0)) == Get(values, SupplyKey(phase), Real(0.0));
    if n > 0 && n < phase {
      LaterPhasesUntouched(values, n - 1, phase);
      PhaseKeysDistinct(n, phase);
    }
  }

  /** The current of a phase multiplied by the sign of its net power, or unchanged when that fails. */
  function SignedValue(values: Record, phase: nat): Value
    requires 1 <= phase <= 3 && CurrentKey(phase) in values
  {
    match NetPower(values, phase)
    case None => values[CurrentKey(phase)]
    case Some(net) => Scale(SignOf(net), values[CurrentKey(phase)])
  }

  /**
   * The current of each phase ends up as the original current times the
   * sign of that phase's original net power; it is unchanged when the
   * subtraction fails, and absent when it was absent.
   */
  lemma SignedCurrentOfPhase(values: Record, phase: nat)
    requires 1 <= phase <= 3
    ensures var r := SignedCurrents(values);
      var key := CurrentKey(phase);
      && (key in r <==> key in values)
      && (key in values ==> r[key] == SignedValue(values, phase))
  {
    var before := SignedCurrentsThrough(values, phase - 1);
    LaterPhasesUntouched(values, phase - 1, phase);
    SignedCurrentsFrame(values, phase - 1);
    EarlierPhasesKept(values, 3, phase);
  }

  /** Once phase `phase` is signed, the later iterations leave its current alone. */
  lemma {:induction false} EarlierPhasesKept(values: Record, n: nat, phase: nat)
    requires 1 <= phase <= n <= 3
    ensures var key := CurrentKey(phase);
      var r := SignedCurrentsThrough(values, n);
      var s := SignedCurrentsThrough(values, phase);
      && (key in r <==> key in s)
      && (key in s ==> r[key] == s[key])
  {
    if n > phase {
      EarlierPhasesKept(values, n - 1, phase);
      PhaseKeysDistinct(n, phase);
    }
  }

  /** A record without currents passes through unchanged. */
  lemma SignedCurrentsWithoutCurrents(values: Record)
    requires forall p :: 1 <= p <= 3 ==> CurrentKey(p) !in values
    ensures SignedCurrents(values) == values
  {
  }

  /** A phase without any power reading keeps its current as it is: the net power 0.0 is not negative. */
  lemma CurrentWithoutPower(values: Record, phase: nat)
    requires 1 <= phase <= 3 && CurrentKey(phase) in values
    requires ConsumeKey(phase) !in values && SupplyKey(phase) !in values
    ensures CurrentKey(phase) in SignedCurrents(values)
    ensures SignedCurrents(values)[CurrentKey(phase)] == values[CurrentKey(phase)]
  {
    SignedCurrentOfPhase(values, phase);
  }

  /** No current in the record is a string. */
  predicate NumericCurrents(values: Record) {
    forall p :: 1 <= p <= 3 && CurrentKey(p) in values ==> !values[CurrentKey(p)].Str?
  }

  /**
   * Applying the pass a second time undoes the first: the pass is not
   * idempotent, it flips a feeding-in phase back.
   */
  lemma SignedCurrentsTwice(values: Record)
    requires NumericCurrents(values)
    ensures SignedCurrents(SignedCurrents(values)) == values
  {
    var twice := SignedCurrents(SignedCurrents(values));
    SignedCurrentsFrame(values, 3);
    SignedCurrentsFrame(SignedCurrents(values), 3);
    forall k | k in values && IsCurrentKey(k) ensures twice[k] == values[k] {
      var p := if k == CurrentKey(1) then 1 else if k == CurrentKey(2) then 2 else 3;
      CurrentTwice(values, p);
    }
  }

  lemma CurrentTwice(values: Record, p: nat)
    requires 1 <= p <= 3 && CurrentKey(p) in values && !values[CurrentKey(p)].Str?
    ensures SignedCurrents(SignedCurrents(values))[CurrentKey(p)] == values[CurrentKey(p)]
  {
    var once := SignedCurrents(values);
    SignedCurrentOfPhase(values, p);
    SignedCurrentOfPhase(once, p);
    LaterPhasesUntouched(values, 3, p);
    if NetPower(values, p).Some? {
      ScaleTwice(SignOf(NetPower(values, p).value), values[CurrentKey(p)]);
    }
  }

  lemma ScaleTwice(sign: int, v: Value)
    requires sign == 1 || sign == -1
    requires !v.Str?
    ensures Scale(sign, Scale(sign, v)) == v
  {
  }

  /** A phase that feeds in shows a changed current after a second pass. */
  lemma SignedCurrentsNotIdempotent()
    ensures var values := map[ConsumeKey(1) := Real(0.0), SupplyKey(1) := Real(500.0), CurrentKey(1) := Real(2.3)];
      SignedCurrents(SignedCurrents(values)) != SignedCurrents(values)
  {
    var values := map[ConsumeKey(1) := Real(0.0), SupplyKey(1) := Real(500.0), CurrentKey(1) := Real(2.3)];
    SignedCurrentOfPhase(values, 1);
    SignedCurrentsTwice(values);
  }

  /**
   * Importing keeps the current positive, exporting negates it, and with
   * no net power the sign defaults to positive.
   */
  lemma SignedCurrentExamples()
    ensures SignedCurrents(map[ConsumeKey(1) := Real(500.0), SupplyKey(1) := Real(0.0), CurrentKey(1) := Real(2.3)])[CurrentKey(1)] == Real(2.3)
    ensures SignedCurrents(map[ConsumeKey(1) := Real(0.0), SupplyKey(1) := Real(500.0), CurrentKey(1) := Real(2.3)])[CurrentKey(1)] == Real(-2.3)
    ensures SignedCurrents(map[ConsumeKey(1) := Real(0.0), SupplyKey(1) := Real(0.0), CurrentKey(1) := Real(2.3)])[CurrentKey(1)] == Real(2.3)
  {
    PhaseKeysDistinct(1, 1);
    SignedCurrentOfPhase(map[ConsumeKey(1) := Real(500.0), SupplyKey(1) := Real(0.0), CurrentKey(1) := Real(2.3)], 1);
    SignedCurrentOfPhase(map[ConsumeKey(1) := Real(0.0), SupplyKey(1) := Real(500.0), CurrentKey(1) := Real(2.3)], 1);
    SignedCurrentOfPhase(map[ConsumeKey(1) := Real(0.0), SupplyKey(1) := Real(0.0), CurrentKey(1) := Real(2.3)], 1);
  }

  /**
   * `_derive_signed_currents`: the loop over phases 1..3 rewrites the
   * caller's record in place.
   */
  method DeriveSignedCurrents(values: Measurements)
    modifies values
    ensures values.entries == SignedCurrents(old(values.entries))
  {
    for phase := 1 to 4
      invariant values.entries == SignedCurrentsThrough(old(values.entries), phase - 1)
    {
      var consume := Get(values.entries, ConsumeKey(phase), Real(0.0));
      var supply := Get(values.entries, SupplyKey(phase), Real(0.0));
      var key := CurrentKey(phase);
      if key !in values.entries {
        continue;
      }
      var current := values.entries[key];
      var a, b := AsNumber(consume), AsNumber(supply);
      if a.None? || b.None? {
        // the TypeError is caught; this phase keeps its value
        continue;
      }
      var net := a.value - b.value;
      var sign := if net < 0.0 then -1 else 1;
      values.Put(key, Scale(sign, current));
    }
  }
}
