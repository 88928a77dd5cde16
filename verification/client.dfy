/**
 * The pure helpers of the Tower client: the name rule and the paging
 * protocol of the list endpoints.
 */
module Client {
  import opened Wrappers

  /** Characters a Tower name may hold: `[A-Za-z0-9_-]`. */
  predicate IsNameChar(c: char) {
    ('A' <= c <= 'Z') || ('a' <= c <= 'z') || ('0' <= c <= '9') || c == '_' || c == '-'
  }

  /** `get_valid_name`: every character outside the name class becomes '-'. */
  function ValidName(fullName: string): (name: string)
    ensures |name| == |fullName|
    ensures forall i :: 0 <= i < |name| ==> IsNameChar(name[i])
    ensures forall i :: 0 <= i < |name| ==> IsNameChar(fullName[i]) ==> name[i] == fullName[i]
  {
    if fullName == [] then []
    else [if IsNameChar(fullName[0]) then fullName[0] else '-'] + ValidName(fullName[1..])
  }

  /** A name made only of name characters is left as it is. */
  lemma ValidNameKeeps(name: string)
    requires forall i :: 0 <= i < |name| ==> IsNameChar(name[i])
    ensures ValidName(name) == name
  {
    var r := ValidName(name);
    assert forall i :: 0 <= i < |r| ==> r[i] == name[i];
  }

  /** Each character outside the name class is replaced by exactly one '-'. */
  lemma ValidNameReplaces(fullName: string, i: nat)
    requires i < |fullName| && !IsNameChar(fullName[i])
    ensures ValidName(fullName)[i] == '-'
  {
    if i > 0 {
      ValidNameReplaces(fullName[1..], i - 1);
    }
  }

  /** A name changes under the rule exactly when it holds a character outside the class. */
  lemma ValidNameFixed(fullName: string)
    ensures ValidName(fullName) == fullName <==> forall i :: 0 <= i < |fullName| ==> IsNameChar(fullName[i])
  {
    if forall i :: 0 <= i < |fullName| ==> IsNameChar(fullName[i]) {
      ValidNameKeeps(fullName);
    }
  }

  /** Applying the rule twice is the same as applying it once. */
  lemma ValidNameIdempotent(fullName: string)
    ensures ValidName(ValidName(fullName)) == ValidName(fullName)
  {
    ValidNameKeeps(ValidName(fullName));
  }

  /** The page size every paged request asks for. */
  const PageSize: nat := 50

  /** The query parameters a paged request sends. */
  datatype Request = Request(max: nat, offset: nat)

  /** One reply of a list endpoint: its `totalSize`, when present, and the items of the page. */
  datatype Page<T> = Page(totalSize: Option<nat>, items: seq<T>)

  /** A missing `totalSize` counts as 0. */
  function Total<T>(p: Page<T>): nat {
    p.totalSize.GetOr(0)
  }

  /**
   * The list endpoint, as a function from the requested offset to its reply,
   * keeps every total below `bound` and sends a non-empty page whenever the
   * offset is below the total it reports.
   */
  ghost predicate Progress<T>(fetch: nat -> Page<T>, bound: nat) {
    forall off: nat ::
      Total(fetch(off)) <= bound && (fetch(off).items == [] ==> Total(fetch(off)) <= off)
  }

  /** The items yielded by the replies to `reqs`, in order. */
  function Yielded<T>(fetch: nat -> Page<T>, reqs: seq<Request>): seq<T> {
    if reqs == [] then []
    else Yielded(fetch, reqs[..|reqs| - 1]) + fetch(reqs[|reqs| - 1].offset).items
  }

  /**
   * `reqs` are the requests `paged_request` sends: each asks for `PageSize`
   * items at an offset equal to the number of items yielded before it, and
   * each after the first follows a reply whose `totalSize` exceeds that number.
   */
  ghost predicate Sent<T>(fetch: nat -> Page<T>, reqs: seq<Request>)
    decreases |reqs|
  {
    reqs == [] ||
    var init := reqs[..|reqs| - 1];
    && Sent(fetch, init)
    && reqs[|reqs| - 1] == Request(PageSize, |Yielded(fetch, init)|)
    && (init != [] ==> |Yielded(fetch, init)| < Total(fetch(init[|init| - 1].offset)))
  }

  /**
   * `reqs` and `items` are what `paged_request` sends and yields: the
   * requests are sent as above, the last reply's `totalSize` does not exceed
   * the number of items, and the items are those of the pages in order.
   */
  ghost predicate IsPagedTrace<T>(fetch: nat -> Page<T>, reqs: seq<Request>, items: seq<T>) {
    && reqs != []
    && Sent(fetch, reqs)
    && items == Yielded(fetch, reqs)
    && Total(fetch(reqs[|reqs| - 1].offset)) <= |items|
  }

  /** `paged_request`: fetches pages until the count of items reaches the reported total. */
  method PagedRequest<T>(fetch: nat -> Page<T>, ghost bound: nat) returns (items: seq<T>, requests: seq<Request>)
    requires Progress(fetch, bound)
    ensures IsPagedTrace(fetch, requests, items)
  {
    items, requests := [], [];
    var numItems := 0;
    var totalSize := 1;
    while numItems < totalSize
      invariant numItems == |items| && items == Yielded(fetch, requests)
      invariant Sent(fetch, requests)
      invariant requests == [] ==> numItems == 0 && totalSize == 1
      invariant requests != [] ==> totalSize == Total(fetch(requests[|requests| - 1].offset))
      invariant totalSize <= bound + 1
      decreases if numItems < totalSize then bound + 1 - numItems else 0
    {
      var request := Request(PageSize, numItems);
      var page := fetch(request.offset);
      YieldedAppend(fetch, requests, request);
      requests := requests + [request];
      totalSize := Total(page);
      items := items + page.items;
      numItems := numItems + |page.items|;
    }
  }

  /** Request `k` of a sent sequence, stated position by position. */
  lemma {:induction false} SentAt<T>(fetch: nat -> Page<T>, reqs: seq<Request>, k: nat)
    requires Sent(fetch, reqs) && k < |reqs|
    ensures reqs[k] == Request(PageSize, |Yielded(fetch, reqs[..k])|)
    ensures k > 0 ==> |Yielded(fetch, reqs[..k])| < Total(fetch(reqs[k - 1].offset))
    decreases |reqs|
  {
    var init := reqs[..|reqs| - 1];
    if k < |init| {
      SentAt(fetch, init, k);
      assert init[..k] == reqs[..k];
    } else {
      assert init == reqs[..k];
    }
  }

  /** Sending one more request appends its page and keeps the earlier prefixes. */
  lemma YieldedAppend<T>(fetch: nat -> Page<T>, reqs: seq<Request>, r: Request)
    ensures Yielded(fetch, reqs + [r]) == Yielded(fetch, reqs) + fetch(r.offset).items
    ensures forall k :: 0 <= k <= |reqs| ==> (reqs + [r])[..k] == reqs[..k]
  {
    assert (reqs + [r])[..|reqs|] == reqs;
  }

  /** A list endpoint that serves the slices of `all` and reports its size. */
  function Served<T>(all: seq<T>): nat -> Page<T> {
    (off: nat) => Page(Some(|all|), all[Min(off, |all|)..Min(off + PageSize, |all|)])
  }

  function Min(a: nat, b: nat): nat {
    if a <= b then a else b
  }

  /** An honest endpoint makes progress. */
  lemma ServedProgress<T>(all: seq<T>)
    ensures Progress(Served(all), |all|)
  {
  }

  /** Against an honest endpoint the paged request yields exactly the whole listing. */
  lemma HonestPaging<T>(all: seq<T>, reqs: seq<Request>, items: seq<T>)
    requires IsPagedTrace(Served(all), reqs, items)
    ensures items == all
  {
    forall j | 0 <= j < |reqs|
      ensures reqs[j].offset == |Yielded(Served(all), reqs[..j])|
    {
      SentAt(Served(all), reqs, j);
    }
    ServedPrefix(all, reqs, |reqs|);
    assert reqs[..|reqs|] == reqs;
  }

  /** The items of a request are appended to those of the requests before it. */
  lemma YieldedStep<T>(fetch: nat -> Page<T>, reqs: seq<Request>, k: nat)
    requires k < |reqs|
    ensures Yielded(fetch, reqs[..k + 1]) == Yielded(fetch, reqs[..k]) + fetch(reqs[k].offset).items
  {
    assert reqs[..k + 1][..k] == reqs[..k];
  }

  /** A page of an honest endpoint continues the prefix before its offset. */
  lemma ServedPage<T>(all: seq<T>, m: nat)
    requires m <= |all|
    ensures all[..m] + Served(all)(m).items == all[..Min(m + PageSize, |all|)]
  {
    assert Served(all)(m).items == all[m..Min(m + PageSize, |all|)];
  }

  /** The first `k` pages from an honest endpoint are a prefix of its listing. */
  lemma {:induction false} ServedPrefix<T>(all: seq<T>, reqs: seq<Request>, k: nat)
    requires forall j :: 0 <= j < |reqs| ==> reqs[j].offset == |Yielded(Served(all), reqs[..j])|
    requires k <= |reqs|
    ensures |Yielded(Served(all), reqs[..k])| <= |all|
    ensures Yielded(Served(all), reqs[..k]) == all[..|Yielded(Served(all), reqs[..k])|]
  {
    if k > 0 {
      ServedPrefix(all, reqs, k - 1);
      YieldedStep(Served(all), reqs, k - 1);
      ServedPage(all, reqs[k - 1].offset);
    }
  }

  /** A paged listing of an honest endpoint that serves `all`. */
  method PagedList<T>(all: seq<T>) returns (items: seq<T>)
    ensures items == all
  {
    ServedProgress(all);
    var requests;
    items, requests := PagedRequest(Served(all), |all|);
    HonestPaging(all, requests, items);
  }

  /** A first reply without `totalSize` ends the listing after one request. */
  lemma MissingTotal<T>(fetch: nat -> Page<T>, reqs: seq<Request>, items: seq<T>)
    requires IsPagedTrace(fetch, reqs, items)
    requires fetch(0).totalSize.None?
    ensures reqs == [Request(PageSize, 0)] && items == fetch(0).items
  {
    SentAt(fetch, reqs, 0);
    assert reqs[..0] == [];
    if |reqs| > 1 {
      SentAt(fetch, reqs, 1);
      assert false;
    }
    assert reqs[..0] == reqs[..|reqs| - 1];
  }
}
