/**
 * The object store the probes run against, standing in for one container of
 * a blob store: blobs by name, put, get, remove, and a listing served one
 * page at a time.
 */
module ObjectStore {
  import opened JavaTypes
  import opened Wrappers

  /** The names a sequence holds. */
  function Elements(s: seq<string>): set<string> {
    if s == [] then {} else Elements(s[..|s| - 1]) + {s[|s| - 1]}
  }

  /** A name is among the elements exactly when the sequence holds it. */
  lemma {:induction false} ElementsMembers(s: seq<string>)
    ensures forall x :: x in Elements(s) <==> x in s
  {
    if s != [] {
      var init := s[..|s| - 1];
      ElementsMembers(init);
      assert s == init + [s[|s| - 1]];
    }
  }

  /** The names of a prefix one longer: one name more. */
  lemma ElementsStep(s: seq<string>, j: nat)
    requires j < |s|
    ensures Elements(s[..j + 1]) == Elements(s[..j]) + {s[j]}
  {
    assert s[..j + 1][..j] == s[..j];
  }

  predicate NoDuplicates(s: seq<string>) {
    forall i, j | 0 <= i < j < |s| :: s[i] != s[j]
  }

  /** The names of two sequences joined: the names of either. */
  lemma ElementsConcat(a: seq<string>, b: seq<string>)
    ensures Elements(a + b) == Elements(a) + Elements(b)
  {
    ElementsMembers(a);
    ElementsMembers(b);
    ElementsMembers(a + b);
  }

  /** The names from `a` on: those before `b` and those from `b` on. */
  lemma ElementsSplit(s: seq<string>, a: nat, b: nat)
    requires a <= b <= |s|
    ensures Elements(s[a..]) == Elements(s[a..b]) + Elements(s[b..])
  {
    assert s[a..] == s[a..b] + s[b..];
    ElementsConcat(s[a..b], s[b..]);
  }

  /** `s` with every name of `drop` taken out, the rest kept in order. */
  function Filtered(s: seq<string>, drop: set<string>): (r: seq<string>)
    ensures |r| <= |s|
  {
    if s == [] then []
    else if s[0] in drop then Filtered(s[1..], drop)
    else [s[0]] + Filtered(s[1..], drop)
  }

  /** A name survives the filter exactly when `s` holds it and `drop` does not. */
  lemma {:induction false} FilteredMembers(s: seq<string>, drop: set<string>)
    ensures forall x :: x in Filtered(s, drop) <==> x in s && x !in drop
  {
    if s != [] {
      FilteredMembers(s[1..], drop);
      assert s == [s[0]] + s[1..];
    }
  }

  /** The names left after filtering: those of `s` minus `drop`. */
  lemma FilteredElements(s: seq<string>, drop: set<string>)
    ensures Elements(Filtered(s, drop)) == Elements(s) - drop
  {
    FilteredMembers(s, drop);
    ElementsMembers(s);
    ElementsMembers(Filtered(s, drop));
  }

  /** `s` with `name` added at the end unless it is already there. */
  function Enlisted(s: seq<string>, name: string): (r: seq<string>)
    ensures Elements(r) == Elements(s) + {name}
  {
    if name in s then ElementsMembers(s); s
    else assert (s + [name])[..|s|] == s; s + [name]
  }

  /** Enlisting a name a second time changes nothing. */
  lemma EnlistedTwice(s: seq<string>, name: string)
    ensures Enlisted(Enlisted(s, name), name) == Enlisted(s, name)
  {
    assert name in Enlisted(s, name) by {
      if name !in s {
        assert Enlisted(s, name)[|s|] == name;
      }
    }
  }

  /** Filtering out names none of which `s` holds changes nothing. */
  lemma {:induction false} FilteredNone(s: seq<string>, drop: set<string>)
    requires forall x | x in s :: x !in drop
    ensures Filtered(s, drop) == s
  {
    if s != [] {
      FilteredNone(s[1..], drop);
    }
  }

  /** Filtering twice is filtering once by both sets. */
  lemma {:induction false} FilteredTwice(s: seq<string>, a: set<string>, b: set<string>)
    ensures Filtered(Filtered(s, a), b) == Filtered(s, a + b)
  {
    if s != [] {
      FilteredTwice(s[1..], a, b);
      if s[0] !in a {
        assert Filtered(s, a) == [s[0]] + Filtered(s[1..], a);
        assert Filtered(s, a)[1..] == Filtered(s[1..], a);
      }
    }
  }

  /** A name appended and then filtered out leaves no trace. */
  lemma {:induction false} FilteredEnlisted(s: seq<string>, name: string, drop: set<string>)
    requires name in drop
    ensures Filtered(Enlisted(s, name), drop) == Filtered(s, drop)
  {
    if name !in s {
      FilteredAppended(s, name, drop);
    }
  }

  lemma {:induction false} FilteredAppended(s: seq<string>, name: string, drop: set<string>)
    requires name in drop
    ensures Filtered(s + [name], drop) == Filtered(s, drop)
  {
    if s != [] {
      assert (s + [name])[1..] == s[1..] + [name];
      FilteredAppended(s[1..], name, drop);
    }
  }

  /** One page of a listing and the marker that asks for the next one. */
  datatype PageSet = PageSet(names: seq<string>, nextMarker: Option<nat>)

  /** The names on a sequence of pages, all together. */
  function NamesOn(pages: seq<PageSet>): set<string> {
    if pages == [] then {} else Elements(pages[0].names) + NamesOn(pages[1..])
  }

  /**
   * One container of a blob store. `order` is the order the listing walks
   * the names in; a marker is the position in it the next page starts at.
   */
  class Store {
    var objects: map<string, seq<int8>>
    var order: seq<string>
    const maxResults: nat

    ghost predicate Valid()
      reads this
    {
      0 < maxResults && Elements(order) == objects.Keys
    }

    /** An empty container whose listing pages hold at most `maxResults` names. */
    constructor(maxResults: nat)
      requires 0 < maxResults
      ensures Valid()
      ensures objects == map[] && order == [] && this.maxResults == maxResults
    {
      objects := map[];
      order := [];
      this.maxResults := maxResults;
    }

    /** `putBlob`: create the blob or overwrite its content. */
    method PutBlob(name: string, content: seq<int8>)
      requires Valid()
      modifies this
      ensures Valid()
      ensures objects == old(objects)[name := content]
      ensures order == Enlisted(old(order), name)
    {
      order := Enlisted(order, name);
      objects := objects[name := content];
    }

    /** `getBlob`: the content, or `None` where the source gets null. */
    function GetBlob(name: string): (blob: Option<seq<int8>>)
      reads this
      ensures blob.Some? <==> name in objects
      ensures blob.Some? ==> blob.value == objects[name]
    {
      if name in objects then Some(objects[name]) else None
    }

    /** `removeBlob`: delete the blob; deleting an absent one is no error. */
    method RemoveBlob(name: string)
      requires Valid()
      modifies this
      ensures Valid()
      ensures objects == old(objects) - {name}
      ensures order == Filtered(old(order), {name})
      ensures name !in old(objects) ==> objects == old(objects) && order == old(order)
    {
      if name !in objects {
        ElementsMembers(order);
        FilteredNone(order, {name});
      }
      FilteredElements(order, {name});
      objects := objects - {name};
      order := Filtered(order, {name});
    }

    /** The position a marker stands for; no marker is the beginning. */
    function Start(marker: Option<nat>): (start: nat)
      reads this
      ensures start <= |order|
      ensures marker.Some? && marker.value <= |order| ==> start == marker.value
    {
      match marker
      case None => 0
      case Some(m) => if m <= |order| then m else |order|
    }

    /**
     * `list`: the page of at most `maxResults` names from the marker on,
     * and a next marker exactly when names remain after the page.
     */
    function List(marker: Option<nat>): (page: PageSet)
      reads this
      requires Valid()
      ensures |page.names| <= maxResults
      ensures Start(marker) + |page.names| <= |order|
      ensures page.names == order[Start(marker)..Start(marker) + |page.names|]
      ensures page.nextMarker.None? <==> Start(marker) + |page.names| == |order|
      ensures page.nextMarker.Some? ==>
                |page.names| == maxResults && page.nextMarker.value == Start(marker) + maxResults
      ensures page.nextMarker.Some? ==> Start(marker) < Start(page.nextMarker)
    {
      var start := Start(marker);
      if start + maxResults < |order| then
        PageSet(order[start..start + maxResults], Some(start + maxResults))
      else
        PageSet(order[start..], None)
    }

    /** The chain of pages the listing hands out from `marker` on. */
    ghost function PagesFrom(marker: Option<nat>): (pages: seq<PageSet>)
      reads this
      requires Valid()
      ensures pages != [] && pages[0] == List(marker)
      decreases |order| - Start(marker)
    {
      var page := List(marker);
      if page.nextMarker.None? then [page] else [page] + PagesFrom(page.nextMarker)
    }

    /**
     * Adding one page's names to what the pages before it named: either
     * that page was the last and every name is named, or the names from
     * the next marker on are the rest.
     */
    lemma ListStep(marker: Option<nat>, before: set<string>, after: set<string>)
      requires Valid()
      requires before + Elements(order[Start(marker)..]) == objects.Keys
      requires after == before + Elements(List(marker).names)
      ensures List(marker).nextMarker.None? ==> after == objects.Keys
      ensures List(marker).nextMarker.Some? ==>
                after + Elements(order[Start(List(marker).nextMarker)..]) == objects.Keys
    {
      var page := List(marker);
      var start, end := Start(marker), Start(marker) + |page.names|;
      ElementsSplit(order, start, end);
      if page.nextMarker.None? {
        assert order[end..] == [];
      } else {
        assert Start(page.nextMarker) == end;
      }
    }

    /** Every page of a complete listing. */
    ghost function Listing(): seq<PageSet>
      reads this
      requires Valid()
    {
      PagesFrom(None)
    }

    /** The pages from a marker on hold exactly the names from its position on. */
    lemma {:induction false} PagesFromNames(marker: Option<nat>)
      requires Valid()
      ensures NamesOn(PagesFrom(marker)) == Elements(order[Start(marker)..])
      decreases |order| - Start(marker)
    {
      var page := List(marker);
      var start, end := Start(marker), Start(marker) + |page.names|;
      var pages := PagesFrom(marker);
      ElementsSplit(order, start, end);
      if page.nextMarker.None? {
        assert order[end..] == [];
        assert pages == [page];
        assert NamesOn(pages) == Elements(page.names) + NamesOn([]);
      } else {
        assert Start(page.nextMarker) == end;
        PagesFromNames(page.nextMarker);
        assert pages[1..] == PagesFrom(page.nextMarker);
      }
    }

    /** A complete listing names exactly the blobs the store holds. */
    lemma ListingIsContents()
      requires Valid()
      ensures NamesOn(Listing()) == objects.Keys
    {
      PagesFromNames(None);
      assert order[Start(None)..] == order;
    }
  }
}
