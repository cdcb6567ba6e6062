/** The `limit`/`offset` pagination applied to the listing query. */
module Paging {

  function Min(a: int, b: int): int { if a <= b then a else b }

  /** Skips the first `skip` entries and keeps at most `limit` of the rest. */
  function Paginate<T>(s: seq<T>, limit: nat, skip: nat): (r: seq<T>)
    ensures skip >= |s| ==> r == []
    ensures skip < |s| ==> |r| == Min(limit, |s| - skip)
    ensures |r| <= limit
    ensures forall i :: 0 <= i < |r| ==> skip + i < |s| && r[i] == s[skip + i]
  {
    if skip >= |s| then [] else s[skip..Min(|s|, skip + limit)]
  }
}
