/**
 * What the probes count, stated over the names of a run and the contents
 * of the read store: the reference the probe loops are proved against.
 */
module Counting {
  import opened JavaTypes
  import opened ObjectStore

  /** How many of `names` the keys `keys` lack: missed creates. */
  function CountMissing(names: seq<string>, keys: set<string>): (n: nat)
    ensures n <= |names|
  {
    if names == [] then 0
    else CountMissing(names[..|names| - 1], keys) + (if names[|names| - 1] in keys then 0 else 1)
  }

  /** How many of `names` the keys `keys` still hold: missed deletes. */
  function CountPresent(names: seq<string>, keys: set<string>): (n: nat)
    ensures n <= |names|
  {
    if names == [] then 0
    else CountPresent(names[..|names| - 1], keys) + (if names[|names| - 1] in keys then 1 else 0)
  }

  /** How many of `names` hold exactly `stale` in `objects`: stale reads. */
  function CountStale(names: seq<string>, objects: map<string, seq<int8>>, stale: seq<int8>): (n: nat)
    ensures n <= |names|
  {
    if names == [] then 0
    else
      var last := names[|names| - 1];
      CountStale(names[..|names| - 1], objects, stale)
        + (if last in objects && objects[last] == stale then 1 else 0)
  }

  /** The index of the first of `names` that `keys` lacks, or `|names|`. */
  function FirstAbsent(names: seq<string>, keys: set<string>): (k: nat)
    ensures k <= |names|
    ensures forall j | 0 <= j < k :: names[j] in keys
    ensures k < |names| ==> names[k] !in keys
  {
    if names == [] || names[0] !in keys then 0
    else 1 + FirstAbsent(names[1..], keys)
  }

  /** One more iteration adds one when its own name is missing. */
  lemma MissingStep(names: seq<string>, i: nat, keys: set<string>)
    requires i < |names|
    ensures CountMissing(names[..i + 1], keys)
              == CountMissing(names[..i], keys) + (if names[i] in keys then 0 else 1)
  {
    assert names[..i + 1][..i] == names[..i];
  }

  /** One more iteration adds one when its own name is present. */
  lemma PresentStep(names: seq<string>, i: nat, keys: set<string>)
    requires i < |names|
    ensures CountPresent(names[..i + 1], keys)
              == CountPresent(names[..i], keys) + (if names[i] in keys then 1 else 0)
  {
    assert names[..i + 1][..i] == names[..i];
  }

  /** One more iteration adds one when its own name holds the stale content. */
  lemma StaleStep(names: seq<string>, i: nat, objects: map<string, seq<int8>>, stale: seq<int8>)
    requires i < |names|
    ensures CountStale(names[..i + 1], objects, stale)
              == CountStale(names[..i], objects, stale)
                 + (if names[i] in objects && objects[names[i]] == stale then 1 else 0)
  {
    assert names[..i + 1][..i] == names[..i];
  }

  /**
   * Walking past a run of present names: a present name extends the run,
   * an absent one ends it there.
   */
  lemma FirstAbsentStep(names: seq<string>, keys: set<string>, i: nat)
    requires i < |names| && i <= FirstAbsent(names, keys)
    ensures names[i] in keys ==> i + 1 <= FirstAbsent(names, keys)
    ensures names[i] !in keys ==> FirstAbsent(names, keys) == i
  {
  }

  /** Every name is counted once, as missing or as present. */
  lemma {:induction false} MissingPlusPresent(names: seq<string>, keys: set<string>)
    ensures CountMissing(names, keys) + CountPresent(names, keys) == |names|
  {
    if names != [] {
      MissingPlusPresent(names[..|names| - 1], keys);
    }
  }

  /** All names are counted missing exactly when the keys hold none of them. */
  lemma {:induction false} AllMissing(names: seq<string>, keys: set<string>)
    ensures CountMissing(names, keys) == |names| <==> forall i | 0 <= i < |names| :: names[i] !in keys
  {
    if names != [] {
      var init := names[..|names| - 1];
      AllMissing(init, keys);
      if forall i | 0 <= i < |names| :: names[i] !in keys {
        assert forall i | 0 <= i < |init| :: init[i] !in keys by {
          forall i | 0 <= i < |init| ensures init[i] !in keys {
            assert init[i] == names[i];
          }
        }
      }
    }
  }

  /** No name is counted missing exactly when the keys hold all of them. */
  lemma {:induction false} NoneMissing(names: seq<string>, keys: set<string>)
    ensures CountMissing(names, keys) == 0 <==> forall i | 0 <= i < |names| :: names[i] in keys
  {
    if names != [] {
      var init := names[..|names| - 1];
      NoneMissing(init, keys);
      if forall i | 0 <= i < |names| :: names[i] in keys {
        assert forall i | 0 <= i < |init| :: init[i] in keys by {
          forall i | 0 <= i < |init| ensures init[i] in keys {
            assert init[i] == names[i];
          }
        }
      }
    }
  }

  /** No name is counted present exactly when the keys hold none of them. */
  lemma {:induction false} NonePresent(names: seq<string>, keys: set<string>)
    ensures CountPresent(names, keys) == 0 <==> forall i | 0 <= i < |names| :: names[i] !in keys
  {
    MissingPlusPresent(names, keys);
    AllMissing(names, keys);
  }

  /** The indices at which `names` holds a name that `keys` lacks. */
  function MissingIndices(names: seq<string>, keys: set<string>): set<nat> {
    set i: nat | i < |names| && names[i] !in keys
  }

  /** `CountMissing` counts the iterations whose name is missing. */
  lemma {:induction false} CountMissingIsIndices(names: seq<string>, keys: set<string>)
    ensures CountMissing(names, keys) == |MissingIndices(names, keys)|
  {
    if names != [] {
      var n := |names| - 1;
      var init := names[..n];
      CountMissingIsIndices(init, keys);
      var before := MissingIndices(init, keys);
      if names[n] in keys {
        assert MissingIndices(names, keys) == before;
      } else {
        assert MissingIndices(names, keys) == before + {n};
        assert n !in before;
      }
    }
  }

  /**
   * With distinct names, as the run's fresh names are, the count of
   * missing names is the number of run names the keys lack.
   */
  lemma {:induction false} CountMissingDistinct(names: seq<string>, keys: set<string>)
    requires NoDuplicates(names)
    ensures CountMissing(names, keys) == |Elements(names) - keys|
  {
    if names != [] {
      var n := |names| - 1;
      var init := names[..n];
      assert NoDuplicates(init);
      CountMissingDistinct(init, keys);
      assert names == init + [names[n]];
      ElementsMembers(init);
      assert names[n] !in init;
      assert Elements(names) == Elements(init) + {names[n]};
      if names[n] in keys {
        assert Elements(names) - keys == Elements(init) - keys;
      } else {
        assert Elements(names) - keys == (Elements(init) - keys) + {names[n]};
      }
    }
  }

  /** A content no name holds is never counted as a stale read. */
  lemma {:induction false} NoneStale(names: seq<string>, objects: map<string, seq<int8>>, stale: seq<int8>)
    requires forall i | 0 <= i < |names| :: names[i] in objects ==> objects[names[i]] != stale
    ensures CountStale(names, objects, stale) == 0
  {
    if names != [] {
      var init := names[..|names| - 1];
      assert forall i | 0 <= i < |init| :: init[i] == names[i];
      NoneStale(init, objects, stale);
    }
  }

  /** When every name holds `stale`, every iteration is a stale read. */
  lemma {:induction false} AllStale(names: seq<string>, objects: map<string, seq<int8>>, stale: seq<int8>)
    requires forall i | 0 <= i < |names| :: names[i] in objects && objects[names[i]] == stale
    ensures CountStale(names, objects, stale) == |names|
  {
    if names != [] {
      var init := names[..|names| - 1];
      assert forall i | 0 <= i < |init| :: init[i] == names[i];
      AllStale(init, objects, stale);
    }
  }
}
