/**
 * The feed route: GET lists one page of published images, newest first;
 * PUT replaces the hearts count of one image.
 */
module FeedRoute {
  import opened Wrappers
  import opened Store
  import opened Http

  const PageInvalid := "page must be a positive integer"
  const LimitInvalid := "limit must be a positive integer"
  const FetchFailed := "Failed to fetch feed"
  const IdRequired := "id is required"
  const HeartsRequired := "hearts is required"
  const IdInvalid := "id must be a positive number"
  const HeartsInvalid := "hearts must be a non-negative number"
  const NotFound := "Image not found"
  const UpdateFailed := "Failed to update hearts"

  /** The largest page size the feed serves. */
  const MaxLimit := 50

  // ---------------------------------------------------------------- GET

  /** `parseInt(raw) || fallback`: raw is the parsed query value, None for NaN;
      NaN and 0 are falsy and give way to the fallback. */
  function OrDefault(raw: Option<int>, fallback: int): int {
    match raw
    case None => fallback
    case Some(n) => if n == 0 then fallback else n
  }

  /** A validated page request: the page echoed back, the capped page size and the offset. */
  datatype FeedPlan = FeedPlan(page: int, limit: nat, skip: nat)

  /** Query handling of GET: defaults, the two rejections (page first), the
      cap on limit and the offset. */
  function FeedQuery(pageRaw: Option<int>, limitRaw: Option<int>): (r: Result<FeedPlan, string>)
    ensures r == Failure(PageInvalid) <==> pageRaw.Some? && pageRaw.value < 0
    ensures r == Failure(LimitInvalid) <==>
              !(pageRaw.Some? && pageRaw.value < 0) && limitRaw.Some? && limitRaw.value < 0
    ensures r.Success? <==>
              !(pageRaw.Some? && pageRaw.value < 0) && !(limitRaw.Some? && limitRaw.value < 0)
    ensures r.Success? ==>
              && r.value.page >= 1
              && 1 <= r.value.limit <= MaxLimit
              && r.value.limit == Min(OrDefault(limitRaw, 10), MaxLimit)
              && r.value.page == OrDefault(pageRaw, 1)
              && r.value.skip == (r.value.page - 1) * r.value.limit
  {
    var page := OrDefault(pageRaw, 1);
    var limit := OrDefault(limitRaw, 10);
    if page < 1 then Failure(PageInvalid)
    else if limit < 1 then Failure(LimitInvalid)
    else
      var capped := Min(limit, MaxLimit);
      var skip := (page - 1) * capped;
      assert skip >= 0 by { assert page - 1 >= 0 && capped >= 0; }
      Success(FeedPlan(page, capped, skip))
  }

  /** A missing, unparsable or zero page is page 1 and a missing, unparsable
      or zero limit is 10; neither is rejected. */
  lemma FeedDefaults(pageRaw: Option<int>, limitRaw: Option<int>)
    requires pageRaw == None || pageRaw == Some(0)
    requires limitRaw == None || limitRaw == Some(0)
    ensures FeedQuery(pageRaw, limitRaw) == Success(FeedPlan(1, 10, 0))
  {
  }

  /** Math.ceil(total / limit) on non-negative integers. */
  function TotalPages(total: nat, limit: int): (r: nat)
    requires limit >= 1
    ensures r * limit >= total
    ensures r == 0 || (r - 1) * limit < total
    ensures r == 0 <==> total == 0
  {
    var q := (total + limit - 1) / limit;
    assert q * limit + (total + limit - 1) % limit == total + limit - 1;
    q
  }

  /** A page lies past the end of the feed (and so lists nothing) exactly when
      its number exceeds totalPages. */
  lemma {:induction false} PastTheEnd(feed: seq<Image>, page: int, limit: nat)
    requires page >= 1 && limit >= 1
    ensures (page - 1) * limit >= 0
    ensures Window(feed, (page - 1) * limit, limit) == [] <==> page > TotalPages(|feed|, limit)
  {
    var t := TotalPages(|feed|, limit);
    var skip := (page - 1) * limit;
    MulMonotone(0, page - 1, limit);
    if page - 1 >= t {
      MulMonotone(t, page - 1, limit);
    } else {
      MulMonotone(page - 1, t - 1, limit);
    }
  }

  lemma MulMonotone(a: int, b: int, c: nat)
    requires a <= b
    ensures a * c <= b * c
  {
    assert b * c - a * c == (b - a) * c;
  }

  /** A feed of 25 records in pages of 10: three pages, the first full, the third holding 5. */
  lemma TwentyFiveRecords(feed: seq<Image>)
    requires |feed| == 25
    ensures TotalPages(|feed|, 10) == 3
    ensures |Window(feed, 0, 10)| == 10 && |Window(feed, 20, 10)| == 5 && Window(feed, 30, 10) == []
  {
  }

  /** GET /api/feed?page=&limit=. The page is read from the store (findMany),
      then the total (count), both against the same state. */
  method Get(store: ImageStore, pageRaw: Option<int>, limitRaw: Option<int>, storeFails: bool)
    returns (resp: Response)
    requires store.Valid()
    ensures match FeedQuery(pageRaw, limitRaw)
            case Failure(e) => resp == Error(400, e)
            case Success(q) =>
              if storeFails then resp == Error(500, FetchFailed)
              else
                && resp.status == 200
                && resp.body.FeedBody?
                && resp.body.images == store.FindMany(q.skip, q.limit)
                && resp.body.total == |store.images|
                && resp.body.page == q.page
                && resp.body.totalPages == TotalPages(|store.images|, q.limit)
                && (resp.body.images == [] <==> q.page > resp.body.totalPages)
    ensures resp.status == 200 ==>
              resp.body.FeedBody? && |resp.body.images| <= Min(OrDefault(limitRaw, 10), MaxLimit)
  {
    var plan := FeedQuery(pageRaw, limitRaw);
    if plan.Failure? {
      return Error(400, plan.error);
    }
    var q := plan.value;
    if storeFails {
      return Error(500, FetchFailed);
    }
    var images := store.FindMany(q.skip, q.limit);
    var total := store.Count();
    var totalPages := TotalPages(total, q.limit);
    PastTheEnd(Newest(store.images), q.page, q.limit);
    resp := Response(200, FeedBody(images, total, q.page, totalPages));
  }

  // ---------------------------------------------------------------- PUT

  /** The two properties PUT reads from its JSON body. */
  datatype PutBody = PutBody(id: Json, hearts: Json)

  /** A validated hearts change. */
  datatype HeartsChange = HeartsChange(id: int, hearts: int)

  /** The validation chain of PUT: both presence checks come before both type
      checks, and within each pair id is checked first. */
  function ValidatePut(id: Json, hearts: Json): (r: Result<HeartsChange, string>)
    ensures r.Success? <==> id.Num? && id.n >= 1 && hearts.Num? && hearts.n >= 0
    ensures r.Success? ==> r.value == HeartsChange(id.n, hearts.n)
    ensures (id.Undefined? || id.Null?) ==> r == Failure(IdRequired)
    ensures !(id.Undefined? || id.Null?) && (hearts.Undefined? || hearts.Null?) ==>
              r == Failure(HeartsRequired)
    ensures (!(id.Undefined? || id.Null?) && !(hearts.Undefined? || hearts.Null?) &&
             !(id.Num? && id.n >= 1)) ==> r == Failure(IdInvalid)
    ensures (id.Num? && id.n >= 1 && !(hearts.Undefined? || hearts.Null?) &&
             !(hearts.Num? && hearts.n >= 0)) ==> r == Failure(HeartsInvalid)
  {
    if id.Undefined? || id.Null? then Failure(IdRequired)
    else if hearts.Undefined? || hearts.Null? then Failure(HeartsRequired)
    else if !id.Num? || id.n < 1 then Failure(IdInvalid)
    else if !hearts.Num? || hearts.n < 0 then Failure(HeartsInvalid)
    else Success(HeartsChange(id.n, hearts.n))
  }

  /** A response together with the table contents after it. */
  datatype Handled = Handled(response: Response, images: seq<Image>)

  /** What PUT does to a table s. body is None when the request body cannot be
      read as a JSON object; storeFails when the table cannot be reached. */
  function PutEffect(s: seq<Image>, body: Option<PutBody>, storeFails: bool): (out: Handled)
    ensures out.response.status != 200 ==> out.images == s
    ensures out.response.status == 200 <==>
              && body.Some?
              && ValidatePut(body.value.id, body.value.hearts).Success?
              && !storeFails
              && Lookup(s, body.value.id.n).Some?
    ensures body.Some? && ValidatePut(body.value.id, body.value.hearts).Failure? ==>
              out.response == Error(400, ValidatePut(body.value.id, body.value.hearts).error)
    ensures (body.Some? && ValidatePut(body.value.id, body.value.hearts).Success? && !storeFails &&
             Lookup(s, body.value.id.n).None?) ==> out.response == Error(404, NotFound)
    ensures out.response.status == 200 ==>
              var c := ValidatePut(body.value.id, body.value.hearts).value;
              && out.images == SetHearts(s, c.id, c.hearts)
              && out.response.body.ImageBody?
              && out.response.body.image == Lookup(s, c.id).value.(hearts := c.hearts)
              && Lookup(out.images, c.id) == Some(out.response.body.image)
    ensures (body.None? || (ValidatePut(body.value.id, body.value.hearts).Success? && storeFails)) ==>
              out.response == Error(500, UpdateFailed)
    ensures out.response.status in {200, 400, 404, 500}
  {
    match body
    case None => Handled(Error(500, UpdateFailed), s)
    case Some(b) =>
      match ValidatePut(b.id, b.hearts)
      case Failure(e) => Handled(Error(400, e), s)
      case Success(c) =>
        if storeFails then Handled(Error(500, UpdateFailed), s)
        else
          match Lookup(s, c.id)
          case None => Handled(Error(404, NotFound), s)
          case Some(x) =>
            LookupAfterSetHearts(s, c.id, c.hearts);
            Handled(Response(200, ImageBody(x.(hearts := c.hearts))), SetHearts(s, c.id, c.hearts))
  }

  /** Sending the same PUT again gives the same response and leaves the table as the first one left it. */
  lemma {:induction false} PutIdempotent(s: seq<Image>, body: Option<PutBody>, storeFails: bool)
    ensures var first := PutEffect(s, body, storeFails);
            PutEffect(first.images, body, storeFails) == first
  {
    var first := PutEffect(s, body, storeFails);
    if first.response.status == 200 {
      var c := ValidatePut(body.value.id, body.value.hearts).value;
      LookupAfterSetHearts(s, c.id, c.hearts);
      SetHeartsIdempotent(s, c.id, c.hearts);
      var x := Lookup(s, c.id).value;
      assert x.(hearts := c.hearts).(hearts := c.hearts) == x.(hearts := c.hearts);
    }
  }

  /** PUT keeps every hearts count non-negative and touches no text field. */
  lemma {:induction false} PutKeepsWellFormed(s: seq<Image>, body: Option<PutBody>, storeFails: bool)
    requires WellFormed(s)
    ensures WellFormed(PutEffect(s, body, storeFails).images)
  {
    var out := PutEffect(s, body, storeFails);
    if out.response.status == 200 {
      var c := ValidatePut(body.value.id, body.value.hearts).value;
      SetHeartsKeepsWellFormed(s, c.id, c.hearts);
    }
  }

  /** PUT /api/feed with body {id, hearts}: validation, existence check, then
      the hearts field of that one record is replaced. */
  method Put(store: ImageStore, body: Option<PutBody>, storeFails: bool) returns (resp: Response)
    requires store.Valid()
    modifies store
    ensures store.Valid()
    ensures Handled(resp, store.images) == PutEffect(old(store.images), body, storeFails)
    ensures store.nextId == old(store.nextId) && store.clock == old(store.clock)
  {
    if body.None? {
      return Error(500, UpdateFailed);
    }
    var check := ValidatePut(body.value.id, body.value.hearts);
    if check.Failure? {
      return Error(400, check.error);
    }
    var c := check.value;
    if storeFails {
      return Error(500, UpdateFailed);
    }
    var existing := store.FindUnique(c.id);
    if existing.None? {
      return Error(404, NotFound);
    }
    var updated := store.Update(c.id, c.hearts);
    resp := Response(200, ImageBody(updated.value));
  }
}
