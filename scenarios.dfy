/**
 * The unit tests' two set-ups over fresh, empty containers. The strong one
 * reads through the very store it writes to; the eventual one reads
 * through a second store that never sees the writes, an eventually
 * consistent store that never reconciles. The tests fix one iteration and
 * a one-byte object; here both are any positive values, as are the
 * names and the listing page size.
 */
module Scenarios {
  import opened JavaTypes
  import opened Wrappers
  import opened ObjectStore
  import opened Counting
  import opened AreWeConsistentYet

  /** `testReadAfterCreate`: every get misses in the eventual set-up only. */
  method TestReadAfterCreate(names: seq<string>, iterations: int32, objectSize: int64, pageSize: nat)
    returns (strong: int32, eventual: int32)
    requires 0 < iterations && |names| == iterations as int && 0 <= objectSize && 0 < pageSize
    ensures strong == 0 && eventual == iterations
  {
    var store := new Store(pageSize);
    var storeRead := new Store(pageSize);
    var awcyStrong := new Runner(store, store, iterations, objectSize);
    var awcyEventual := new Runner(store, storeRead, iterations, objectSize);
    strong := awcyStrong.ReadAfterCreate(names);
    eventual := awcyEventual.ReadAfterCreate(names);
    AllMissing(names, {});
  }

  /**
   * `testReadAfterDelete`: no get finds a removed blob in either set-up,
   * so the eventual count is zero, not the iteration count the ignored
   * test asks for.
   */
  method TestReadAfterDelete(names: seq<string>, iterations: int32, objectSize: int64, pageSize: nat)
    returns (strong: int32, eventual: int32)
    requires 0 < iterations && |names| == iterations as int && 0 <= objectSize && 0 < pageSize
    ensures strong == 0 && eventual == 0
  {
    var store := new Store(pageSize);
    var storeRead := new Store(pageSize);
    var awcyStrong := new Runner(store, store, iterations, objectSize);
    var awcyEventual := new Runner(store, storeRead, iterations, objectSize);
    strong := awcyStrong.ReadAfterDelete(names);
    eventual := awcyEventual.ReadAfterDelete(names);
    NonePresent(names, {});
  }

  /**
   * `testReadAfterOverwrite`: the strong set-up never reads the first
   * payload back; the eventual one finds no blob at its first get and
   * fails there.
   */
  method TestReadAfterOverwrite(names: seq<string>, iterations: int32, objectSize: int64, pageSize: nat)
    returns (strong: Result<int32, ProbeError>, eventual: Result<int32, ProbeError>)
    requires 0 < iterations && |names| == iterations as int && 0 < objectSize && 0 < pageSize
    ensures strong == Success(0)
    ensures eventual == Failure(NullBlob(names[0]))
  {
    var store := new Store(pageSize);
    var storeRead := new Store(pageSize);
    var awcyStrong := new Runner(store, store, iterations, objectSize);
    var awcyEventual := new Runner(store, storeRead, iterations, objectSize);
    strong := awcyStrong.ReadAfterOverwrite(names);
    eventual := awcyEventual.ReadAfterOverwrite(names);
  }

  /** `testListAfterCreate`: every listing lacks the name in the eventual set-up only. */
  method TestListAfterCreate(names: seq<string>, iterations: int32, objectSize: int64, pageSize: nat)
    returns (strong: int32, eventual: int32)
    requires 0 < iterations && |names| == iterations as int && 0 <= objectSize && 0 < pageSize
    ensures strong == 0 && eventual == iterations
  {
    var store := new Store(pageSize);
    var storeRead := new Store(pageSize);
    var awcyStrong := new Runner(store, store, iterations, objectSize);
    var awcyEventual := new Runner(store, storeRead, iterations, objectSize);
    strong := awcyStrong.ListAfterCreate(names);
    eventual := awcyEventual.ListAfterCreate(names);
    AllMissing(names, {});
  }

  /**
   * `testListAfterDelete`: no listing holds a removed name in either
   * set-up, so the eventual count is zero, not the iteration count the
   * ignored test asks for.
   */
  method TestListAfterDelete(names: seq<string>, iterations: int32, objectSize: int64, pageSize: nat)
    returns (strong: int32, eventual: int32)
    requires 0 < iterations && |names| == iterations as int && 0 <= objectSize && 0 < pageSize
    ensures strong == 0 && eventual == 0
  {
    var store := new Store(pageSize);
    var storeRead := new Store(pageSize);
    var awcyStrong := new Runner(store, store, iterations, objectSize);
    var awcyEventual := new Runner(store, storeRead, iterations, objectSize);
    strong := awcyStrong.ListAfterDelete(names);
    eventual := awcyEventual.ListAfterDelete(names);
    NonePresent(names, {});
  }
}
