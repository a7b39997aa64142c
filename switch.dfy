/** ecu/switch.h: a global table of 64 s32 switch values that scripts set
    and read by index. An index that is a build-time constant out of range
    is a build error; a run-time one is only logged and the access still
    happens, past the end of the array. Both are excluded here by a
    precondition. */
module Switch {
  import opened Int32

  const SWITCH_COUNT: nat := 64

  /** The table after `switches[idx] = val`. */
  function SetAt(table: seq<s32>, idx: nat, val: s32): (r: seq<s32>)
    requires idx < |table|
    ensures |r| == |table|
    ensures r[idx] == val
    ensures forall i :: 0 <= i < |r| && i != idx ==> r[i] == table[i]
  {
    table[..idx] + [val] + table[idx + 1..]
  }

  /** Setting one index twice keeps only the second value. */
  lemma {:induction false} SetAtLastWins(table: seq<s32>, idx: nat, a: s32, b: s32)
    requires idx < |table|
    ensures SetAt(SetAt(table, idx, a), idx, b) == SetAt(table, idx, b)
  {
    var l := SetAt(SetAt(table, idx, a), idx, b);
    var r := SetAt(table, idx, b);
    assert forall i :: 0 <= i < |l| ==> l[i] == r[i];
  }

  /** Writes to two different indices commute. */
  lemma {:induction false} SetAtCommutes(table: seq<s32>, i: nat, j: nat, a: s32, b: s32)
    requires i < |table| && j < |table| && i != j
    ensures SetAt(SetAt(table, i, a), j, b) == SetAt(SetAt(table, j, b), i, a)
  {
    var l := SetAt(SetAt(table, i, a), j, b);
    var r := SetAt(SetAt(table, j, b), i, a);
    assert forall k :: 0 <= k < |l| ==> l[k] == r[k];
  }

  /** Setting an index to the value it already holds changes nothing. */
  lemma {:induction false} SetAtSame(table: seq<s32>, idx: nat)
    requires idx < |table|
    ensures SetAt(table, idx, table[idx]) == table
  {
    var l := SetAt(table, idx, table[idx]);
    assert forall k :: 0 <= k < |l| ==> l[k] == table[k];
  }

  /** `s32 switches[SWITCH_COUNT]` */
  class Switches {
    const switches: array<s32>

    /** Zero-initialised static storage. */
    constructor()
      ensures switches.Length == SWITCH_COUNT
      ensures forall i :: 0 <= i < SWITCH_COUNT ==> switches[i] == 0
    {
      switches := new s32[SWITCH_COUNT](_ => 0);
    }

    /** switch_set */
    method Set(idx: u32, val: s32)
      requires switches.Length == SWITCH_COUNT && idx < SWITCH_COUNT
      modifies switches
      ensures switches[..] == SetAt(old(switches[..]), idx, val)
    {
      switches[idx] := val;
    }

    /** switch_get */
    method Get(idx: u32) returns (v: s32)
      requires switches.Length == SWITCH_COUNT && idx < SWITCH_COUNT
      ensures v == switches[idx]
    {
      v := switches[idx];
    }
  }
}
