/**
 * The module-level `warned` set and `warn` (index.js:5-17): a diagnostic is emitted the
 * first time its exact text is seen and suppressed afterwards. Nothing is ever removed.
 */
module Warnings {

  /** The messages of `msgs` that would be emitted after `seen`, first occurrences only, in order. */
  function Fresh(seen: set<string>, msgs: seq<string>): seq<string>
    decreases |msgs|
  {
    if msgs == [] then []
    else
      var init := msgs[..|msgs| - 1];
      var m := msgs[|msgs| - 1];
      Fresh(seen, init) + if m in seen || m in init then [] else [m]
  }

  /** The elements of `msgs`. */
  function Elements(msgs: seq<string>): set<string>
  {
    set m | m in msgs
  }

  predicate NoRepeats(msgs: seq<string>)
  {
    forall i, j :: 0 <= i < j < |msgs| ==> msgs[i] != msgs[j]
  }

  /** The messages `Fresh` emits are new, distinct, and exactly the unseen ones. */
  lemma {:induction false} FreshIsNew(seen: set<string>, msgs: seq<string>)
    ensures NoRepeats(Fresh(seen, msgs))
    ensures forall m :: m in Fresh(seen, msgs) <==> m in msgs && m !in seen
    decreases |msgs|
  {
    if msgs != [] {
      var init := msgs[..|msgs| - 1];
      FreshIsNew(seen, init);
      assert forall m :: m in msgs <==> m in init || m == msgs[|msgs| - 1];
    }
  }

  lemma FreshSnoc(seen: set<string>, msgs: seq<string>, m: string)
    ensures Fresh(seen, msgs + [m]) == Fresh(seen, msgs) + if m in seen || m in msgs then [] else [m]
  {
    var s := msgs + [m];
    assert s[..|s| - 1] == msgs;
  }

  lemma ElementsSnoc(msgs: seq<string>, m: string)
    ensures Elements(msgs + [m]) == Elements(msgs) + {m}
  {
  }

  class Warner {
    /** The messages warned about so far (the `warned` Set). */
    var warned: set<string>
    /** The diagnostics written to the console so far, in order. */
    ghost var log: seq<string>

    /** Every warned message was printed exactly once. */
    ghost predicate Valid()
      reads this
    {
      NoRepeats(log) && warned == Elements(log)
    }

    constructor ()
      ensures Valid() && warned == {} && log == []
    {
      warned := {};
      log := [];
    }

    /** warn: the message is printed only if it has not been warned about before. */
    method Warn(message: string) returns (emitted: bool)
      requires Valid()
      modifies this
      ensures Valid()
      ensures emitted <==> message !in old(warned)
      ensures warned == old(warned) + {message}
      ensures log == old(log) + if emitted then [message] else []
    {
      if message in warned {
        return false;
      }
      warned := warned + {message};
      log := log + [message];
      emitted := true;
    }
  }
}
