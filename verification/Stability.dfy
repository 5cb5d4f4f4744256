/** Readings of an HP bar flicker; a value counts only once it has been read several times running. */
module Stability {
  import opened Common

  type Reading = Option<int>

  /** The length of the run of equal values the readings end in; a missing reading ends no run. */
  function TrailingRun(readings: seq<Reading>): (n: nat)
    ensures n <= |readings|
  {
    var last := |readings| - 1;
    if readings == [] || readings[last].None? then 0
    else if last > 0 && readings[last - 1] == readings[last] then 1 + TrailingRun(readings[..last])
    else 1
  }

  /** The repetitions needed: one reading never suffices, whatever the setting. */
  function Needed(required: int): nat {
    if required < 2 then 2 else required
  }

  /** The value of the latest long enough run. */
  function Confirmed(required: int, readings: seq<Reading>): Option<int> {
    if readings == [] then None
    else if TrailingRun(readings) >= Needed(required) then readings[|readings| - 1]
    else Confirmed(required, readings[..|readings| - 1])
  }

  /** The `n` readings before `end` all show `v`. */
  predicate HasRun(readings: seq<Reading>, n: nat, end: nat, v: int) {
    n <= end <= |readings| && forall k | end - n <= k < end :: readings[k] == Some(v)
  }

  lemma {:induction false} TrailingRunIsLongest(readings: seq<Reading>, n: nat, v: int)
    requires n > 0
    ensures HasRun(readings, n, |readings|, v) <==>
      readings != [] && readings[|readings| - 1] == Some(v) && n <= TrailingRun(readings)
  {
    if readings != [] {
      var last := |readings| - 1;
      var init := readings[..last];
      if n > 1 {
        TrailingRunIsLongest(init, n - 1, v);
        assert HasRun(readings, n, |readings|, v) <==>
          readings[last] == Some(v) && HasRun(init, n - 1, last, v) by {
          if readings[last] == Some(v) && HasRun(init, n - 1, last, v) {
            assert forall k | |readings| - n <= k < last :: readings[k] == init[k];
          }
          if HasRun(readings, n, |readings|, v) {
            assert forall k | last - (n - 1) <= k < last :: init[k] == readings[k];
          }
        }
      }
    }
  }

  /** `v` is confirmed exactly when some long enough run shows `v` and no long enough run ends later. */
  lemma {:induction false} ConfirmedIsLatestRun(required: int, readings: seq<Reading>, v: int)
    ensures Confirmed(required, readings) == Some(v) <==>
      exists end: nat ::
        && HasRun(readings, Needed(required), end, v)
        && forall later: nat, w | end < later <= |readings| :: !HasRun(readings, Needed(required), later, w)
  {
    var n := Needed(required);
    if readings != [] {
      var last := |readings| - 1;
      var init := readings[..last];
      ConfirmedIsLatestRun(required, init, v);
      forall w ensures HasRun(readings, n, |readings|, w) <==> readings[last] == Some(w) && n <= TrailingRun(readings) {
        TrailingRunIsLongest(readings, n, w);
      }
      assert forall end: nat, w | end <= last :: HasRun(readings, n, end, w) == HasRun(init, n, end, w);
      if TrailingRun(readings) >= n {
        assert HasRun(readings, n, |readings|, readings[last].value);
      }
    }
  }

  /** The value of the latest run of as many readings as the setting says. */
  function ConfirmedAsSet(required: int, readings: seq<Reading>): Option<int> {
    if readings == [] then None
    else
      var last := readings[|readings| - 1];
      if last.Some? && TrailingRun(readings) >= required then last
      else ConfirmedAsSet(required, readings[..|readings| - 1])
  }

  lemma {:induction false} SettingIsKept(required: int, readings: seq<Reading>)
    requires required >= 2
    ensures Confirmed(required, readings) == ConfirmedAsSet(required, readings)
  {
    if readings != [] {
      SettingIsKept(required, readings[..|readings| - 1]);
    }
  }

  /** A single reading is never confirmed, not even when one is all that is asked for. */
  lemma OneReadingIsNotEnough(required: int, v: int)
    requires required < 2
    ensures Confirmed(required, [Some(v)]) == None && ConfirmedAsSet(required, [Some(v)]) == Some(v)
  {
    assert [Some(v)][..0] == [];
  }

  ghost predicate AlwaysAsSet(required: int) {
    forall readings :: Confirmed(required, readings) == ConfirmedAsSet(required, readings)
  }

  /** The setting is kept for all streams of readings if and only if it asks for two or more. */
  lemma SettingIsKeptIff(required: int)
    ensures AlwaysAsSet(required) <==> required >= 2
  {
    if required >= 2 {
      forall readings ensures Confirmed(required, readings) == ConfirmedAsSet(required, readings) {
        SettingIsKept(required, readings);
      }
    } else {
      OneReadingIsNotEnough(required, 5);
    }
  }

  class StabilityBuffer {
    const required: int
    var candidate: Option<int>
    var streak: int
    var confirmed: Option<int>
    /** The readings fed in since the last reset. */
    ghost var readings: seq<Reading>

    ghost predicate Valid()
      reads this
    {
      && candidate == (if readings == [] then None else readings[|readings| - 1])
      && streak == TrailingRun(readings)
      && confirmed == Confirmed(required, readings)
    }

    constructor (required: int)
      ensures Valid() && readings == [] && this.required == required
    {
      this.required := required;
      candidate, streak, confirmed, readings := None, 0, None, [];
    }

    /** Feeds a reading; the answer says whether a new value has just been confirmed. */
    method Update(value: Reading) returns (isNew: bool)
      requires Valid()
      modifies this
      ensures Valid() && readings == old(readings) + [value]
      ensures isNew <==> Confirmed(required, readings) != Confirmed(required, old(readings))
      ensures isNew ==> confirmed.Some?
    {
      ghost var before := readings;
      readings := readings + [value];
      assert readings[..|readings| - 1] == before;
      if value.None? || value != candidate {
        candidate := value;
        streak := if value.Some? then 1 else 0;
        return false;
      }
      streak := streak + 1;
      if streak >= required && value != confirmed {
        confirmed := value;
        return true;
      }
      return false;
    }

    method Reset()
      modifies this
      ensures Valid() && readings == []
    {
      candidate, streak, confirmed, readings := None, 0, None, [];
    }
  }

  // ---------------------------------------------------------------------------
  // The log of confirmed values
  // ---------------------------------------------------------------------------

  /** No value is followed by itself. */
  predicate StutterFree(log: seq<int>) {
    forall i | 0 < i < |log| :: log[i - 1] != log[i]
  }

  /** The values confirmed in turn. */
  function Confirmations(required: int, readings: seq<Reading>): seq<int> {
    if readings == [] then []
    else
      var init := readings[..|readings| - 1];
      var now := Confirmed(required, readings);
      Confirmations(required, init) + if now.Some? && now != Confirmed(required, init) then [now.value] else []
  }

  /** The capture loop's use of the buffer: a newly confirmed value goes on the log unless it is there already. */
  method Observe(buffer: StabilityBuffer, log: seq<int>, reading: Reading) returns (log': seq<int>)
    requires buffer.Valid()
    modifies buffer
    ensures buffer.Valid() && buffer.readings == old(buffer.readings) + [reading]
    ensures StutterFree(log) ==> StutterFree(log')
    ensures log == Confirmations(buffer.required, old(buffer.readings)) ==>
            log' == Confirmations(buffer.required, buffer.readings)
    ensures log' == if Confirmed(buffer.required, buffer.readings) !=
                       Confirmed(buffer.required, old(buffer.readings)) &&
                       (log == [] || log[|log| - 1] != Confirmed(buffer.required, buffer.readings).value)
                    then log + [Confirmed(buffer.required, buffer.readings).value] else log
  {
    ghost var before := buffer.readings;
    log' := log;
    var confirmedNow := buffer.Update(reading);
    if confirmedNow {
      var k := buffer.confirmed.value;
      if log == [] || log[|log| - 1] != k {
        log' := log + [k];
      }
    }
    assert buffer.readings[..|before|] == before;
    ConfirmationsAreStutterFree(buffer.required, before);
  }

  /** The confirmations never repeat, and the last of them is the value confirmed now. */
  lemma {:induction false} ConfirmationsAreStutterFree(required: int, readings: seq<Reading>)
    ensures StutterFree(Confirmations(required, readings))
    ensures Confirmed(required, readings) ==
            var log := Confirmations(required, readings);
            if log == [] then None else Some(log[|log| - 1])
  {
    if readings != [] {
      ConfirmationsAreStutterFree(required, readings[..|readings| - 1]);
    }
  }
}
