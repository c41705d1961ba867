/** Fetching every flavor page by page with a marker. */
module Pagination {
  import opened Base
  import opened InstanceTypes

  const PAGE_SIZE: nat := 1000

  ghost predicate DistinctIDs(list: seq<Flavor>) {
    forall i, j :: 0 <= i < j < |list| ==> list[i].id != list[j].id
  }

  /** Position just after the entry with the given ID; 0 when there is none. */
  function After(list: seq<Flavor>, id: string): (n: nat)
    ensures n <= |list|
  {
    if list == [] then 0
    else if list[|list| - 1].id == id then |list|
    else After(list[..|list| - 1], id)
  }

  /** The server: the next entries after the marker, a full page as long as that many are left. */
  function Page(list: seq<Flavor>, marker: Option<string>): seq<Flavor> {
    var start := if marker.None? then 0 else After(list, marker.value);
    list[start..if start + PAGE_SIZE <= |list| then start + PAGE_SIZE else |list|]
  }

  lemma {:induction false} AfterIsNext(list: seq<Flavor>, i: nat)
    requires DistinctIDs(list) && i < |list|
    ensures After(list, list[i].id) == i + 1
  {
    var n := |list| - 1;
    if i < n {
      AfterIsNext(list[..n], i);
    }
  }

  /** The page after `k` full ones. */
  lemma PageIsNext(list: seq<Flavor>, marker: Option<string>, k: nat)
    requires DistinctIDs(list) && PAGE_SIZE * k <= |list|
    requires marker == if k == 0 then None else Some(list[PAGE_SIZE * k - 1].id)
    ensures Page(list, marker)
         == list[PAGE_SIZE * k..if PAGE_SIZE * (k + 1) <= |list| then PAGE_SIZE * (k + 1) else |list|]
  {
    if 0 < k {
      AfterIsNext(list, PAGE_SIZE * k - 1);
    }
  }

  /** The `k`-th request (from 0) is answered, and the page it closes can be continued from. */
  predicate Continues(list: seq<Flavor>, fails: nat -> bool, k: nat) {
    !fails(k) && (PAGE_SIZE * (k + 1) <= |list| ==> list[PAGE_SIZE * (k + 1) - 1].id != "")
  }

  /** Against a server with distinct IDs the loop ends with the whole list in order, an exact
      multiple of the page size included, unless a request fails or a full page ends in an empty ID. */
  method FetchInstanceTypes(list: seq<Flavor>, fails: nat -> bool)
    returns (r: Result<seq<Flavor>, string>, ghost requests: nat)
    requires DistinctIDs(list)
    ensures r.Ok? <==> forall k: nat :: k <= |list| / PAGE_SIZE ==> Continues(list, fails, k)
    ensures r.Ok? ==> r.value == list
    ensures requests <= |list| / 1000 + 1 && (r.Ok? ==> requests == |list| / 1000 + 1)
  {
    var types: seq<Flavor> := [];
    var marker: Option<string> := None;
    var k := 0;
    requests := 0;
    while true
      invariant PAGE_SIZE * k <= |list| && types == list[..PAGE_SIZE * k]
      invariant marker == if k == 0 then None else Some(list[PAGE_SIZE * k - 1].id)
      invariant forall j: nat :: j < k ==> Continues(list, fails, j)
      invariant requests == k
      decreases |list| - PAGE_SIZE * k
    {
      requests := k + 1;
      if fails(k) {
        assert !Continues(list, fails, k);
        return Err("list flavors"), requests;
      }
      PageIsNext(list, marker, k);
      var page := Page(list, marker);
      types := types + page;
      if |page| < PAGE_SIZE {
        break;
      }
      var last := page[|page| - 1].id;
      assert last == list[PAGE_SIZE * (k + 1) - 1].id;
      if last == "" {
        assert !Continues(list, fails, k);
        return Err("empty flavor id at page boundary"), requests;
      }
      if marker.Some? && marker.value == last {
        assert false;
        return Err("marker did not advance"), requests;
      }
      marker := Some(last);
      k := k + 1;
    }
    assert k == |list| / PAGE_SIZE;
    return Ok(types), requests;
  }
}
