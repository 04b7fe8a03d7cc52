/** The bounded sets that keep app-used and plugin-used events from being sent twice in a turn. */
module AnalyticsDedupe {
  import opened Wrappers

  const MAX_KEYS := 4096

  /** The turn, and the connector or plugin. */
  type Key = (string, string)

  /** A call: an app call without a connector returns before the set is looked at, a plugin call
      without an id only after the set may have been cleared. */
  datatype Call = AppUsed(key: Option<Key>) | PluginUsed(key: Option<Key>)

  predicate Clears(emitted: set<Key>, call: Call) {
    |emitted| >= MAX_KEYS && !(call.AppUsed? && call.key.None?)
  }

  function Remaining(emitted: set<Key>, call: Call): set<Key> {
    if Clears(emitted, call) then {} else emitted
  }

  function After(emitted: set<Key>, call: Call): set<Key> {
    if call.key.Some? then Remaining(emitted, call) + {call.key.value} else Remaining(emitted, call)
  }

  /** A call with a key is admitted when the set, cleared first if it is full, does not hold the key. */
  predicate Admits(emitted: set<Key>, call: Call) {
    call.key.Some? ==> call.key.value !in Remaining(emitted, call)
  }

  class DedupeSet {
    var emitted: set<Key>

    constructor ()
      ensures emitted == {}
    {
      emitted := {};
    }

    method ShouldEnqueueAppUsed(key: Option<Key>) returns (admit: bool)
      modifies this
      ensures emitted == After(old(emitted), AppUsed(key))
      ensures admit == Admits(old(emitted), AppUsed(key))
    {
      if key.None? { return true; }
      if |emitted| >= MAX_KEYS {
        emitted := {};
      }
      admit := key.value !in emitted;
      emitted := emitted + {key.value};
    }

    method ShouldEnqueuePluginUsed(key: Option<Key>) returns (admit: bool)
      modifies this
      ensures emitted == After(old(emitted), PluginUsed(key))
      ensures admit == Admits(old(emitted), PluginUsed(key))
    {
      if |emitted| >= MAX_KEYS {
        emitted := {};
      }
      if key.None? { return true; }
      admit := key.value !in emitted;
      emitted := emitted + {key.value};
    }
  }

  // ----- Runs

  function EmittedAfter(calls: seq<Call>, n: nat): set<Key>
    requires n <= |calls|
  {
    if n == 0 then {} else After(EmittedAfter(calls, n - 1), calls[n-1])
  }

  function ClearsIn(calls: seq<Call>, n: nat): nat
    requires n <= |calls|
  {
    if n == 0 then 0 else ClearsIn(calls, n - 1) + if Clears(EmittedAfter(calls, n - 1), calls[n-1]) then 1 else 0
  }

  predicate AdmitsKeyAt(calls: seq<Call>, i: nat)
    requires i < |calls|
  {
    calls[i].key.Some? && Admits(EmittedAfter(calls, i), calls[i])
  }

  /** How many calls with a key were admitted. */
  function Admissions(calls: seq<Call>, n: nat): nat
    requires n <= |calls|
  {
    if n == 0 then 0 else Admissions(calls, n - 1) + if AdmitsKeyAt(calls, n - 1) then 1 else 0
  }

  /** How often one key was admitted. */
  function AdmissionsOf(calls: seq<Call>, n: nat, key: Key): nat
    requires n <= |calls|
  {
    if n == 0 then 0
    else AdmissionsOf(calls, n - 1, key) + if AdmitsKeyAt(calls, n - 1) && calls[n-1].key.value == key then 1 else 0
  }

  /** Every admission is in the set or went away with a full set: the books balance over any run. */
  lemma {:induction false} AdmissionsBalance(calls: seq<Call>, n: nat)
    requires n <= |calls|
    ensures |EmittedAfter(calls, n)| <= MAX_KEYS
    ensures Admissions(calls, n) == MAX_KEYS * ClearsIn(calls, n) + |EmittedAfter(calls, n)|
  {
    if n > 0 {
      AdmissionsBalance(calls, n - 1);
      StepSize(EmittedAfter(calls, n - 1), calls[n-1]);
    }
  }

  lemma StepSize(emitted: set<Key>, call: Call)
    requires |emitted| <= MAX_KEYS
    ensures |After(emitted, call)| <= MAX_KEYS
    ensures |After(emitted, call)| + (if Clears(emitted, call) then MAX_KEYS else 0)
      == |emitted| + if call.key.Some? && Admits(emitted, call) then 1 else 0
  {
    var rest := Remaining(emitted, call);
    if call.key.Some? {
      if call.key.value in rest {
        assert rest + {call.key.value} == rest;
      } else {
        assert |rest + {call.key.value}| == |rest| + 1;
      }
    }
  }

  lemma {:induction false} KeyNeedsClearToReturn(calls: seq<Call>, n: nat, key: Key)
    requires n <= |calls|
    ensures AdmissionsOf(calls, n, key) <= ClearsIn(calls, n) + if key in EmittedAfter(calls, n) then 1 else 0
  {
    if n > 0 { KeyNeedsClearToReturn(calls, n - 1, key); }
  }

  lemma NotClearedBetween(calls: seq<Call>, i: nat, j: nat)
    requires i < j < |calls| && calls[i].key.Some? && AdmitsKeyAt(calls, j) && calls[i].key == calls[j].key
    requires ClearsIn(calls, j) <= ClearsIn(calls, i + 1)
    ensures ClearsIn(calls, j) < ClearsIn(calls, j + 1)
  {
    AdmittedIsHeld(calls, i);
    StaysWithoutClear(calls, i + 1, j, calls[i].key.value);
    AdmittedAgainMeansCleared(calls, j);
  }

  lemma ClearedByThen(calls: seq<Call>, i: nat, j: nat)
    requires i < j < |calls|
    requires ClearsIn(calls, j) <= ClearsIn(calls, i + 1) ==> ClearsIn(calls, j) < ClearsIn(calls, j + 1)
    ensures ClearsIn(calls, i + 1) < ClearsIn(calls, j + 1)
  {
    ClearsGrow(calls, i + 1, j);
    ClearsGrow(calls, j, j + 1);
  }

  /** No key is admitted twice unless the set was cleared after the first admission. */
  lemma AdmittedTwiceMeansCleared(calls: seq<Call>, i: nat, j: nat)
    requires i < j < |calls| && AdmitsKeyAt(calls, i) && AdmitsKeyAt(calls, j) && calls[i].key == calls[j].key
    ensures ClearsIn(calls, i + 1) < ClearsIn(calls, j + 1)
  {
    if ClearsIn(calls, j) <= ClearsIn(calls, i + 1) { NotClearedBetween(calls, i, j); }
    ClearedByThen(calls, i, j);
  }

  lemma AdmittedAgainMeansCleared(calls: seq<Call>, j: nat)
    requires j < |calls| && AdmitsKeyAt(calls, j) && calls[j].key.value in EmittedAfter(calls, j)
    ensures ClearsIn(calls, j + 1) == ClearsIn(calls, j) + 1
  {
    HeldAndAdmittedMeansCleared(EmittedAfter(calls, j), calls[j]);
  }

  lemma AdmittedIsHeld(calls: seq<Call>, i: nat)
    requires i < |calls| && calls[i].key.Some?
    ensures calls[i].key.value in EmittedAfter(calls, i + 1)
  {
  }

  lemma HeldAndAdmittedMeansCleared(emitted: set<Key>, call: Call)
    requires call.key.Some? && call.key.value in emitted && Admits(emitted, call)
    ensures Clears(emitted, call)
  {
  }

  lemma {:induction false} ClearsGrow(calls: seq<Call>, n: nat, m: nat)
    requires n <= m <= |calls|
    ensures ClearsIn(calls, n) <= ClearsIn(calls, m)
  {
    if n < m { ClearsGrow(calls, n, m - 1); }
  }

  lemma {:induction false} StaysWithoutClear(calls: seq<Call>, n: nat, m: nat, key: Key)
    requires n <= m <= |calls| && key in EmittedAfter(calls, n) && ClearsIn(calls, m) <= ClearsIn(calls, n)
    ensures key in EmittedAfter(calls, m)
  {
    if n < m {
      ClearsGrow(calls, n, m - 1);
      StaysWithoutClear(calls, n, m - 1, key);
    }
  }

  /** Over any run a key is admitted at most once more than one time in every 4096 admissions. */
  lemma RepeatsAreRare(calls: seq<Call>, n: nat, key: Key)
    requires n <= |calls|
    ensures AdmissionsOf(calls, n, key) <= 1 + Admissions(calls, n) / MAX_KEYS
  {
    AdmissionsBalance(calls, n);
    KeyNeedsClearToReturn(calls, n, key);
  }

  // ----- Which calls are admitted

  function KeysIn(calls: seq<Call>, from: nat, to: nat): set<Key>
    requires from <= to <= |calls|
  {
    set i | from <= i < to && calls[i].key.Some? :: calls[i].key.value
  }

  /** The last of the first `n` calls that found 4096 different keys since the one before it, or the first call;
      an app call without a connector is never that call. */
  function LastClear(calls: seq<Call>, n: nat): (r: nat)
    requires n <= |calls|
    ensures r <= n
  {
    if n == 0 then 0
    else
      var from := LastClear(calls, n - 1);
      if |KeysIn(calls, from, n - 1)| >= 4096 && calls[n-1] != AppUsed(None) then n - 1 else from
  }

  lemma OneMoreKey(calls: seq<Call>, from: nat, n: nat)
    requires from < n <= |calls|
    ensures KeysIn(calls, from, n)
      == KeysIn(calls, from, n - 1) + if calls[n-1].key.Some? then {calls[n-1].key.value} else {}
  {
  }

  lemma {:induction false} HeldKeys(calls: seq<Call>, n: nat)
    requires n <= |calls|
    ensures EmittedAfter(calls, n) == KeysIn(calls, LastClear(calls, n), n)
  {
    if n > 0 {
      HeldKeys(calls, n - 1);
      OneMoreKey(calls, LastClear(calls, n), n);
    }
  }

  /** Over any run, a call is admitted exactly when it has no key or its key was not used since the last clear. */
  lemma AdmittedIff(calls: seq<Call>, i: nat)
    requires i < |calls|
    ensures Admits(EmittedAfter(calls, i), calls[i])
       <==> calls[i].key.None? || calls[i].key.value !in KeysIn(calls, LastClear(calls, i + 1), i)
  {
    HeldKeys(calls, i);
  }
}
