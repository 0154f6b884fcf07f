/**
 * The probe engine: five probes that write through one store and observe
 * through another, counting the iterations in which the observation
 * disagrees with the write.
 */
module AreWeConsistentYet {
  import opened JavaTypes
  import opened Wrappers
  import opened Utils
  import opened ObjectStore
  import opened Counting

  /** The argument checks the constructor makes. */
  datatype ConfigError =
    | IterationsNotPositive(iterations: int32)
    | NegativeObjectSize(objectSize: int64)

  /** A probe that dereferences an absent blob fails as the source does. */
  datatype ProbeError = NullBlob(blobName: string)

  /** A put followed by a remove of the same name leaves only the remove. */
  lemma PutThenRemove(objects: map<string, seq<int8>>, order: seq<string>, name: string, content: seq<int8>)
    ensures objects[name := content] - {name} == objects - {name}
    ensures Filtered(Enlisted(order, name), {name}) == Filtered(order, {name})
  {
    FilteredEnlisted(order, name, {name});
  }

  /** A second put of a name replaces what the first put stored. */
  lemma PutTwice(objects: map<string, seq<int8>>, name: string, first: seq<int8>, second: seq<int8>)
    ensures objects[name := first][name := second] == objects[name := second]
  {
  }

  /**
   * Removing the name of iteration `i` from what the first `i` iterations
   * left: what the first `i + 1` iterations leave.
   */
  lemma SweepStep(objects: map<string, seq<int8>>, order: seq<string>, names: seq<string>, i: nat)
    requires i < |names|
    ensures (objects - Elements(names[..i])) - {names[i]} == objects - Elements(names[..i + 1])
    ensures Filtered(Filtered(order, Elements(names[..i])), {names[i]})
              == Filtered(order, Elements(names[..i + 1]))
  {
    ElementsStep(names, i);
    FilteredTwice(order, Elements(names[..i]), {names[i]});
  }

  /** Before the first iteration nothing has been removed. */
  lemma SweepStart(objects: map<string, seq<int8>>, order: seq<string>, names: seq<string>)
    ensures objects - Elements(names[..0]) == objects
    ensures Filtered(order, Elements(names[..0])) == order
  {
    assert names[..0] == [];
    FilteredNone(order, {});
  }

  class Runner {
    const writeStore: Store
    const readStore: Store
    const iterations: int32
    const payload1: seq<int8>
    const payload2: seq<int8>

    ghost predicate Valid()
      reads writeStore, readStore
    {
      && 0 < iterations
      && |payload1| == |payload2|
      && (payload1 == payload2 <==> |payload1| == 0)
      && writeStore.Valid()
      && readStore.Valid()
    }

    /** Both handles reach one and the same store. */
    predicate Aliased() {
      writeStore == readStore
    }

    /**
     * A runner over checked arguments: each payload is `objectSize`
     * copies of its fill byte, 1 for the first and 2 for the second.
     */
    constructor(writeStore: Store, readStore: Store, iterations: int32, objectSize: int64)
      requires writeStore.Valid() && readStore.Valid()
      requires 0 < iterations && 0 <= objectSize
      ensures Valid()
      ensures this.writeStore == writeStore && this.readStore == readStore
      ensures this.iterations == iterations
      ensures payload1 == InfiniteByteSource(1).Slice(objectSize as nat)
      ensures payload2 == InfiniteByteSource(2).Slice(objectSize as nat)
      ensures |payload1| == |payload2| == objectSize as int
      ensures forall i | 0 <= i < objectSize as int :: payload1[i] != payload2[i]
    {
      this.writeStore := writeStore;
      this.readStore := readStore;
      this.iterations := iterations;
      payload1 := InfiniteByteSource(1).Slice(objectSize as nat);
      payload2 := InfiniteByteSource(2).Slice(objectSize as nat);
      new;
      SlicesDiffer(InfiniteByteSource(1), InfiniteByteSource(2), objectSize as nat);
    }

    /**
     * The constructor with its argument checks: a non-positive iteration
     * count is rejected first, then a negative object size.
     */
    static method New(writeStore: Store, readStore: Store, iterations: int32, objectSize: int64)
      returns (r: Result<Runner, ConfigError>)
      requires writeStore.Valid() && readStore.Valid()
      ensures iterations <= 0 ==> r == Failure(IterationsNotPositive(iterations))
      ensures 0 < iterations && objectSize < 0 ==> r == Failure(NegativeObjectSize(objectSize))
      ensures r.Success? <==> 0 < iterations && 0 <= objectSize
      ensures r.Success? ==> fresh(r.value) && r.value.Valid()
      ensures r.Success? ==> r.value.writeStore == writeStore && r.value.readStore == readStore
      ensures r.Success? ==> r.value.iterations == iterations
      ensures r.Success? ==> |r.value.payload1| == |r.value.payload2| == objectSize as int
      ensures r.Success? ==> r.value.payload1 == InfiniteByteSource(1).Slice(objectSize as nat)
      ensures r.Success? ==> r.value.payload2 == InfiniteByteSource(2).Slice(objectSize as nat)
      ensures r.Success? ==> forall i | 0 <= i < objectSize as int :: r.value.payload1[i] != r.value.payload2[i]
    {
      if iterations <= 0 {
        return Failure(IterationsNotPositive(iterations));
      }
      if objectSize < 0 {
        return Failure(NegativeObjectSize(objectSize));
      }
      var runner := new Runner(writeStore, readStore, iterations, objectSize);
      r := Success(runner);
    }

    /**
     * `readAfterCreate`: put each name, get it through the read store,
     * count the gets that find nothing, then remove the name.
     */
    method ReadAfterCreate(names: seq<string>) returns (count: int32)
      requires Valid() && |names| == iterations as int
      modifies writeStore
      ensures Valid()
      ensures 0 <= count <= iterations
      ensures count as int == if Aliased() then 0 else CountMissing(names, old(readStore.objects.Keys))
      ensures writeStore.objects == old(writeStore.objects) - Elements(names)
      ensures writeStore.order == Filtered(old(writeStore.order), Elements(names))
      ensures !Aliased() ==> unchanged(readStore)
    {
      ghost var written, order, visible := writeStore.objects, writeStore.order, readStore.objects;
      SweepStart(written, order, names);
      count := 0;
      var i := 0;
      while i < iterations as int
        invariant 0 <= count as int <= i <= iterations as int
        invariant Valid()
        invariant count as int == if Aliased() then 0 else CountMissing(names[..i], visible.Keys)
        invariant writeStore.objects == written - Elements(names[..i])
        invariant writeStore.order == Filtered(order, Elements(names[..i]))
      {
        var missing := ReadAfterCreateRound(names[i]);
        if missing {
          count := count + 1;
        }
        SweepStep(written, order, names, i);
        MissingStep(names, i, visible.Keys);
        i := i + 1;
      }
      assert names[..i] == names;
    }

    /**
     * One iteration of `readAfterCreate`: whether the get through the
     * read store right after the put found nothing.
     */
    method ReadAfterCreateRound(name: string) returns (missing: bool)
      requires Valid()
      modifies writeStore
      ensures Valid()
      ensures missing <==> !Aliased() && name !in old(readStore.objects)
      ensures writeStore.objects == old(writeStore.objects) - {name}
      ensures writeStore.order == Filtered(old(writeStore.order), {name})
    {
      ghost var objects, order := writeStore.objects, writeStore.order;
      writeStore.PutBlob(name, payload1);
      var blob := readStore.GetBlob(name);
      missing := blob.None?;
      writeStore.RemoveBlob(name);
      PutThenRemove(objects, order, name, payload1);
    }

    /**
     * `readAfterDelete`: put and remove each name, then count the gets
     * through the read store that still find it.
     */
    method ReadAfterDelete(names: seq<string>) returns (count: int32)
      requires Valid() && |names| == iterations as int
      modifies writeStore
      ensures Valid()
      ensures 0 <= count <= iterations
      ensures count as int == if Aliased() then 0 else CountPresent(names, old(readStore.objects.Keys))
      ensures writeStore.objects == old(writeStore.objects) - Elements(names)
      ensures writeStore.order == Filtered(old(writeStore.order), Elements(names))
      ensures !Aliased() ==> unchanged(readStore)
    {
      ghost var written, order, visible := writeStore.objects, writeStore.order, readStore.objects;
      SweepStart(written, order, names);
      count := 0;
      var i := 0;
      while i < iterations as int
        invariant 0 <= count as int <= i <= iterations as int
        invariant Valid()
        invariant count as int == if Aliased() then 0 else CountPresent(names[..i], visible.Keys)
        invariant writeStore.objects == written - Elements(names[..i])
        invariant writeStore.order == Filtered(order, Elements(names[..i]))
      {
        var present := ReadAfterDeleteRound(names[i]);
        if present {
          count := count + 1;
        }
        SweepStep(written, order, names, i);
        PresentStep(names, i, visible.Keys);
        i := i + 1;
      }
      assert names[..i] == names;
    }

    /**
     * One iteration of `readAfterDelete`: whether the get through the
     * read store right after the remove still found the blob.
     */
    method ReadAfterDeleteRound(name: string) returns (present: bool)
      requires Valid()
      modifies writeStore
      ensures Valid()
      ensures present <==> !Aliased() && name in old(readStore.objects)
      ensures writeStore.objects == old(writeStore.objects) - {name}
      ensures writeStore.order == Filtered(old(writeStore.order), {name})
    {
      ghost var objects, order := writeStore.objects, writeStore.order;
      writeStore.PutBlob(name, payload1);
      writeStore.RemoveBlob(name);
      var blob := readStore.GetBlob(name);
      present := blob.Some?;
      PutThenRemove(objects, order, name, payload1);
    }

    /**
     * `readAfterOverwrite`: put each name with the first payload, then
     * with the second, and count the gets that read the first. A get that
     * finds nothing fails the probe, as the source's null dereference
     * does, before that name is removed.
     */
    method ReadAfterOverwrite(names: seq<string>) returns (r: Result<int32, ProbeError>)
      requires Valid() && |names| == iterations as int
      modifies writeStore
      ensures Valid()
      ensures r.Success? <==> Aliased() || FirstAbsent(names, old(readStore.objects.Keys)) == |names|
      ensures r.Success? ==> 0 <= r.value <= iterations
      ensures r.Success? ==> r.value as int == if Aliased() then (if |payload1| == 0 then |names| else 0)
                                               else CountStale(names, old(readStore.objects), payload1)
      ensures r.Success? ==> writeStore.objects == old(writeStore.objects) - Elements(names)
      ensures r.Success? ==> writeStore.order == Filtered(old(writeStore.order), Elements(names))
      ensures r.Failure? ==>
                var k := FirstAbsent(names, old(readStore.objects.Keys));
                && k < |names|
                && r.error == NullBlob(names[k])
                && writeStore.objects == (old(writeStore.objects) - Elements(names[..k]))[names[k] := payload2]
                && writeStore.order == Enlisted(Filtered(old(writeStore.order), Elements(names[..k])), names[k])
      ensures !Aliased() ==> unchanged(readStore)
    {
      ghost var written, order, visible := writeStore.objects, writeStore.order, readStore.objects;
      SweepStart(written, order, names);
      var count: int32 := 0;
      var i := 0;
      while i < iterations as int
        invariant 0 <= count as int <= i <= iterations as int
        invariant Valid()
        invariant Aliased() || i <= FirstAbsent(names, visible.Keys)
        invariant count as int == if Aliased() then (if |payload1| == 0 then i else 0)
                                  else CountStale(names[..i], visible, payload1)
        invariant writeStore.objects == written - Elements(names[..i])
        invariant writeStore.order == Filtered(order, Elements(names[..i]))
      {
        var stale := ReadAfterOverwriteRound(names[i]);
        if !Aliased() {
          FirstAbsentStep(names, visible.Keys, i);
        }
        if stale.Failure? {
          return Failure(stale.error);
        }
        if stale.value {
          count := count + 1;
        }
        SweepStep(written, order, names, i);
        StaleStep(names, i, visible, payload1);
        i := i + 1;
      }
      assert names[..i] == names;
      r := Success(count);
    }

    /**
     * One iteration of `readAfterOverwrite`: whether the get through the
     * read store after both puts read the first payload, or the failure
     * of a get that found nothing, which leaves the blob in place.
     */
    method ReadAfterOverwriteRound(name: string) returns (stale: Result<bool, ProbeError>)
      requires Valid()
      modifies writeStore
      ensures Valid()
      ensures stale.Failure? <==> !Aliased() && name !in old(readStore.objects)
      ensures stale.Success? ==>
                (stale.value <==> if Aliased() then |payload1| == 0 else old(readStore.objects)[name] == payload1)
      ensures stale.Success? ==> writeStore.objects == old(writeStore.objects) - {name}
      ensures stale.Success? ==> writeStore.order == Filtered(old(writeStore.order), {name})
      ensures stale.Failure? ==> stale.error == NullBlob(name)
      ensures stale.Failure? ==> writeStore.objects == old(writeStore.objects)[name := payload2]
      ensures stale.Failure? ==> writeStore.order == Enlisted(old(writeStore.order), name)
    {
      ghost var objects, order := writeStore.objects, writeStore.order;
      writeStore.PutBlob(name, payload1);
      writeStore.PutBlob(name, payload2);
      PutTwice(objects, name, payload1, payload2);
      EnlistedTwice(order, name);
      var blob := readStore.GetBlob(name);
      if blob.None? {
        return Failure(NullBlob(name));
      }
      var read := blob.value;
      writeStore.RemoveBlob(name);
      PutThenRemove(objects, order, name, payload2);
      // `payload1.read()` yields the slice's bytes, which `payload1` holds.
      return Success(read == payload1);
    }

    /**
     * `listAfterCreate`: put each name, list the read store, count the
     * listings that lack the name, then remove it.
     */
    method ListAfterCreate(names: seq<string>) returns (count: int32)
      requires Valid() && |names| == iterations as int
      modifies writeStore
      ensures Valid()
      ensures 0 <= count <= iterations
      ensures count as int == if Aliased() then 0 else CountMissing(names, old(readStore.objects.Keys))
      ensures writeStore.objects == old(writeStore.objects) - Elements(names)
      ensures writeStore.order == Filtered(old(writeStore.order), Elements(names))
      ensures !Aliased() ==> unchanged(readStore)
    {
      ghost var written, order, visible := writeStore.objects, writeStore.order, readStore.objects;
      SweepStart(written, order, names);
      count := 0;
      var i := 0;
      while i < iterations as int
        invariant 0 <= count as int <= i <= iterations as int
        invariant Valid()
        invariant count as int == if Aliased() then 0 else CountMissing(names[..i], visible.Keys)
        invariant writeStore.objects == written - Elements(names[..i])
        invariant writeStore.order == Filtered(order, Elements(names[..i]))
      {
        var missing := ListAfterCreateRound(names[i]);
        if missing {
          count := count + 1;
        }
        SweepStep(written, order, names, i);
        MissingStep(names, i, visible.Keys);
        i := i + 1;
      }
      assert names[..i] == names;
    }

    /**
     * One iteration of `listAfterCreate`: whether the listing of the
     * read store right after the put lacked the name.
     */
    method ListAfterCreateRound(name: string) returns (missing: bool)
      requires Valid()
      modifies writeStore
      ensures Valid()
      ensures missing <==> !Aliased() && name !in old(readStore.objects)
      ensures writeStore.objects == old(writeStore.objects) - {name}
      ensures writeStore.order == Filtered(old(writeStore.order), {name})
    {
      ghost var objects, order := writeStore.objects, writeStore.order;
      writeStore.PutBlob(name, payload1);
      var listed := ListAllBlobs();
      missing := name !in listed;
      writeStore.RemoveBlob(name);
      PutThenRemove(objects, order, name, payload1);
    }

    /**
     * `listAfterDelete`: put and remove each name, then count the
     * listings of the read store that still hold it.
     */
    method ListAfterDelete(names: seq<string>) returns (count: int32)
      requires Valid() && |names| == iterations as int
      modifies writeStore
      ensures Valid()
      ensures 0 <= count <= iterations
      ensures count as int == if Aliased() then 0 else CountPresent(names, old(readStore.objects.Keys))
      ensures writeStore.objects == old(writeStore.objects) - Elements(names)
      ensures writeStore.order == Filtered(old(writeStore.order), Elements(names))
      ensures !Aliased() ==> unchanged(readStore)
    {
      ghost var written, order, visible := writeStore.objects, writeStore.order, readStore.objects;
      SweepStart(written, order, names);
      count := 0;
      var i := 0;
      while i < iterations as int
        invariant 0 <= count as int <= i <= iterations as int
        invariant Valid()
        invariant count as int == if Aliased() then 0 else CountPresent(names[..i], visible.Keys)
        invariant writeStore.objects == written - Elements(names[..i])
        invariant writeStore.order == Filtered(order, Elements(names[..i]))
      {
        var present := ListAfterDeleteRound(names[i]);
        if present {
          count := count + 1;
        }
        SweepStep(written, order, names, i);
        PresentStep(names, i, visible.Keys);
        i := i + 1;
      }
      assert names[..i] == names;
    }

    /**
     * One iteration of `listAfterDelete`: whether the listing of the
     * read store right after the remove still held the name.
     */
    method ListAfterDeleteRound(name: string) returns (present: bool)
      requires Valid()
      modifies writeStore
      ensures Valid()
      ensures present <==> !Aliased() && name in old(readStore.objects)
      ensures writeStore.objects == old(writeStore.objects) - {name}
      ensures writeStore.order == Filtered(old(writeStore.order), {name})
    {
      ghost var objects, order := writeStore.objects, writeStore.order;
      writeStore.PutBlob(name, payload1);
      writeStore.RemoveBlob(name);
      var listed := ListAllBlobs();
      present := name in listed;
      PutThenRemove(objects, order, name, payload1);
    }

    /**
     * `listAllBlobs`: ask the read store for pages from no marker on,
     * adding each page's names, until a page comes back without a next
     * marker.
     */
    method ListAllBlobs() returns (names: set<string>)
      requires readStore.Valid()
      ensures names == NamesOn(readStore.Listing())
      ensures names == readStore.objects.Keys
    {
      names := {};
      var marker: Option<nat> := None;
      assert readStore.order[readStore.Start(marker)..] == readStore.order;
      while true
        invariant readStore.Valid()
        invariant names + Elements(readStore.order[readStore.Start(marker)..]) == readStore.objects.Keys
        decreases |readStore.order| - readStore.Start(marker)
      {
        var page := readStore.List(marker);
        ghost var before := names;
        var j := 0;
        while j < |page.names|
          invariant 0 <= j <= |page.names|
          invariant names == before + Elements(page.names[..j])
        {
          names := names + {page.names[j]};
          ElementsStep(page.names, j);
          j := j + 1;
        }
        assert page.names[..j] == page.names;
        readStore.ListStep(marker, before, names);
        if page.nextMarker.None? {
          break;
        }
        marker := page.nextMarker;
      }
      readStore.ListingIsContents();
    }
  }
}
