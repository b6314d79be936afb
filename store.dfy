/**
 * The published-image table: the records, the order the feed lists them in,
 * and the store class with the four operations the route handlers issue
 * (create, findUnique, update, count/findMany).
 */
module Store {
  import opened Wrappers
  import opened Text

  /** One published image. createdAt is a logical clock: a larger value is a later creation. */
  datatype Image = Image(id: int, imageUrl: string, prompt: string, hearts: int, createdAt: int)

  function Min(a: int, b: int): int { if a <= b then a else b }

  /** The records in feed order, newest first: the insertion-ordered sequence reversed. */
  function Newest(s: seq<Image>): (r: seq<Image>)
    ensures |r| == |s|
    ensures forall k :: 0 <= k < |s| ==> r[k] == s[|s| - 1 - k]
  {
    if s == [] then [] else [s[|s| - 1]] + Newest(s[..|s| - 1])
  }

  /** The part of a listing that skip/take selects: nothing when skip is past
      the end, otherwise at most take items starting at index skip. */
  function Window(s: seq<Image>, skip: nat, take: nat): seq<Image>
  {
    if skip >= |s| then [] else s[skip..Min(skip + take, |s|)]
  }

  /** The first record with the given id, if any. */
  function Lookup(s: seq<Image>, id: int): (r: Option<Image>)
    ensures r.Some? ==> r.value in s && r.value.id == id
    ensures r.None? <==> forall k :: 0 <= k < |s| ==> s[k].id != id
  {
    if s == [] then None
    else if s[0].id == id then Some(s[0])
    else Lookup(s[1..], id)
  }

  /** Ids strictly increase along the sequence, so no two records share one. */
  ghost predicate IdsIncreasing(s: seq<Image>) {
    forall i, j :: 0 <= i < j < |s| ==> s[i].id < s[j].id
  }

  /** With distinct ids, the record at index k is the one found for its id. */
  lemma {:induction false} LookupFindsIndex(s: seq<Image>, k: nat)
    requires IdsIncreasing(s) && k < |s|
    ensures Lookup(s, s[k].id) == Some(s[k])
  {
    if k > 0 {
      assert s[0].id < s[k].id;
      LookupFindsIndex(s[1..], k - 1);
    }
  }

  /** Every record with the given id has its hearts replaced by h; the others are kept. */
  function SetHearts(s: seq<Image>, id: int, h: int): (r: seq<Image>)
    ensures |r| == |s|
    ensures forall k :: 0 <= k < |s| ==>
              r[k] == if s[k].id == id then s[k].(hearts := h) else s[k]
  {
    if s == [] then []
    else [if s[0].id == id then s[0].(hearts := h) else s[0]] + SetHearts(s[1..], id, h)
  }

  /** After replacing the hearts of id, looking id up finds the same record with the new count. */
  lemma {:induction false} LookupAfterSetHearts(s: seq<Image>, id: int, h: int)
    ensures Lookup(SetHearts(s, id, h), id) ==
            match Lookup(s, id)
            case None => None
            case Some(x) => Some(x.(hearts := h))
  {
    if s != [] {
      assert SetHearts(s, id, h)[1..] == SetHearts(s[1..], id, h);
      LookupAfterSetHearts(s[1..], id, h);
    }
  }

  /** Replacing a hearts count by a non-negative one keeps the table well formed. */
  lemma SetHeartsKeepsWellFormed(s: seq<Image>, id: int, h: int)
    requires WellFormed(s) && h >= 0
    ensures WellFormed(SetHearts(s, id, h))
  {
    var r := SetHearts(s, id, h);
    forall k | 0 <= k < |r| ensures RecordWellFormed(r[k]) {
      assert RecordWellFormed(s[k]);
    }
  }

  /** Replacing hearts with the same value twice is the same as once. */
  lemma SetHeartsIdempotent(s: seq<Image>, id: int, h: int)
    ensures SetHearts(SetHearts(s, id, h), id, h) == SetHearts(s, id, h)
  {
  }

  /** What the route handlers guarantee of every record they write: hearts
      are never negative, the image URL is non-empty, and both text fields are
      stored trimmed. The table itself does not enforce this. */
  ghost predicate WellFormed(s: seq<Image>) {
    forall k :: 0 <= k < |s| ==> RecordWellFormed(s[k])
  }

  ghost predicate RecordWellFormed(x: Image) {
    && x.hearts >= 0
    && x.imageUrl != [] && Trim(x.imageUrl) == x.imageUrl
    && Trim(x.prompt) == x.prompt
  }

  /** Ids are positive, assigned in increasing order and never reused;
      creation times increase with insertion order; nextId and clock lie
      beyond every stored id and creation time. */
  ghost predicate Ordered(s: seq<Image>, nextId: int, clock: int) {
    && nextId >= 1
    && IdsIncreasing(s)
    && (forall i, j :: 0 <= i < j < |s| ==> s[i].createdAt < s[j].createdAt)
    && (forall k :: 0 <= k < |s| ==> 1 <= s[k].id < nextId && s[k].createdAt < clock)
  }

  /** Appending a record that takes the next id and the current clock keeps the order. */
  lemma AppendKeepsOrdered(s: seq<Image>, nextId: int, clock: int, x: Image)
    requires Ordered(s, nextId, clock) && x.id == nextId && x.createdAt == clock
    ensures Ordered(s + [x], nextId + 1, clock + 1)
  {
  }

  /** The new record is the newest: it comes first in feed order, before all older ones. */
  lemma NewestAppend(s: seq<Image>, x: Image)
    ensures Newest(s + [x]) == [x] + Newest(s)
  {
    assert (s + [x])[..|s|] == s;
  }

  /** Appending a well-formed record keeps the table well formed. */
  lemma AppendKeepsWellFormed(s: seq<Image>, x: Image)
    requires WellFormed(s) && RecordWellFormed(x)
    ensures WellFormed(s + [x])
  {
  }

  /** Replacing hearts touches neither ids nor creation times, so the order is kept. */
  lemma SetHeartsKeepsOrdered(s: seq<Image>, nextId: int, clock: int, id: int, h: int)
    requires Ordered(s, nextId, clock)
    ensures Ordered(SetHearts(s, id, h), nextId, clock)
  {
    var r := SetHearts(s, id, h);
    assert forall k :: 0 <= k < |r| ==> r[k].id == s[k].id && r[k].createdAt == s[k].createdAt;
  }

  /** Replacing the hearts of an id no record has changes nothing. */
  lemma SetHeartsAbsent(s: seq<Image>, id: int, h: int)
    requires Lookup(s, id).None?
    ensures SetHearts(s, id, h) == s
  {
  }

  /** The table. images holds the records in insertion order; nextId and
      clock are the autoincrement id and the creation timestamp the next
      record receives. */
  class ImageStore {
    var images: seq<Image>
    var nextId: int
    var clock: int

    /** The table's own guarantees hold of its current state. */
    ghost predicate Valid()
      reads this
    {
      Ordered(images, nextId, clock)
    }

    /** An empty table whose first record gets id 1. */
    constructor ()
      ensures Valid() && images == [] && nextId == 1
    {
      images := [];
      nextId := 1;
      clock := 0;
    }

    /** The number of stored records: the length of the complete feed, so
        that one page of that size lists the whole feed. */
    function Count(): (n: nat)
      reads this
      ensures n == |Newest(images)|
      ensures Window(Newest(images), 0, n) == Newest(images)
    {
      |images|
    }

    /** The record with the given id, or None when there is none. */
    function FindUnique(id: int): (r: Option<Image>)
      reads this
      ensures r.None? <==> forall k :: 0 <= k < |images| ==> images[k].id != id
      ensures r.Some? ==> exists k :: 0 <= k < |images| && images[k] == r.value && r.value.id == id
    {
      Lookup(images, id)
    }

    /** The records ordered by createdAt descending, skipping skip of them and
        returning at most take. */
    function FindMany(skip: nat, take: nat): (page: seq<Image>)
      reads this
      requires Valid()
      ensures |page| == if skip < |images| then Min(take, |images| - skip) else 0
      ensures forall k :: 0 <= k < |page| ==> page[k] == images[|images| - 1 - skip - k]
      ensures forall k :: 0 < k < |page| ==> page[k].createdAt < page[k - 1].createdAt
    {
      Window(Newest(images), skip, take)
    }

    /** Adds one record with the given fields, zero hearts, a fresh id and the latest creation time. */
    method Create(imageUrl: string, prompt: string) returns (img: Image)
      requires Valid()
      modifies this
      ensures Valid()
      ensures img == Image(old(nextId), imageUrl, prompt, 0, old(clock))
      ensures images == old(images) + [img]
      ensures Newest(images) == [img] + Newest(old(images))
      ensures nextId == old(nextId) + 1 && clock == old(clock) + 1
    {
      img := Image(nextId, imageUrl, prompt, 0, clock);
      AppendKeepsOrdered(images, nextId, clock, img);
      NewestAppend(images, img);
      images := images + [img];
      nextId := nextId + 1;
      clock := clock + 1;
    }

    /** Sets the hearts of the record with the given id to h and returns the
        updated record; None, with nothing changed, when there is no such record. */
    method Update(id: int, h: int) returns (r: Option<Image>)
      requires Valid()
      modifies this
      ensures Valid()
      ensures images == SetHearts(old(images), id, h)
      ensures nextId == old(nextId) && clock == old(clock)
      ensures r == match Lookup(old(images), id)
                   case None => None
                   case Some(x) => Some(x.(hearts := h))
      ensures r.None? ==> images == old(images)
    {
      var found := Lookup(images, id);
      r := match found
           case None => None
           case Some(x) => Some(x.(hearts := h));
      SetHeartsKeepsOrdered(images, nextId, clock, id, h);
      if found.None? {
        SetHeartsAbsent(images, id, h);
      }
      images := SetHearts(images, id, h);
    }
  }
}
