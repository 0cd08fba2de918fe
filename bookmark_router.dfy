/** The bookmarks router: serialization of stored records, the outcomes of
    GET on the list and on one id, and the validate-and-append procedure of
    POST /bookmarks. */
module BookmarkRouter {
  import opened JsValues

  datatype Option<T> = None | Some(value: T)

  /** A bookmark record. `title`, `url` and `description` hold whatever the
      request carried; `rating` is an integer (the only kind the create path
      lets through, and the column type of stored records). */
  datatype Bookmark = Bookmark(id: string, title: Value, url: Value, description: Value, rating: int)

  /** The client-facing view of a record, as `serializeBookmark` builds it. */
  datatype Serialized = Serialized(id: string, title: string, url: Value, description: string, rating: int)

  /** What a handler sends: plain text (`res.send`), an error object
      `{error: {message}}`, one serialized record or a list of them. */
  datatype Body =
    | Text(text: string)
    | ErrorObject(message: string)
    | One(bookmark: Serialized)
    | Many(bookmarks: seq<Serialized>)

  datatype Response = Response(status: int, body: Body, location: Option<string>)

  /** The two foreign library calls, left uninterpreted: valid-url's
      `isWebUri` (its result read for truth) and the `xss` sanitiser. */
  datatype Libraries = Libraries(isWebUri: Value -> bool, xss: Value -> string)

  predicate HasId(bs: seq<Bookmark>, id: string) {
    exists i :: 0 <= i < |bs| && bs[i].id == id
  }

  /** No two records share an id. */
  predicate UniqueIds(bs: seq<Bookmark>) {
    forall i, j :: 0 <= i < j < |bs| ==> bs[i].id != bs[j].id
  }

  // ---------------------------------------------------------------------
  // Serialization

  /** `serializeBookmark`: id and url pass through, title and description go
      through the sanitiser, rating is a number (already one here). */
  function Serialize(b: Bookmark, xss: Value -> string): (s: Serialized)
    ensures s.id == b.id && s.url == b.url && s.rating == b.rating
    ensures s.title == xss(b.title) && s.description == xss(b.description)
  {
    Serialized(b.id, xss(b.title), b.url, xss(b.description), b.rating)
  }

  /** Two records serialize alike exactly when they agree on id, url and rating
      and the sanitiser maps their titles and their descriptions alike: the
      output depends on title and description only through the sanitiser. */
  lemma SerializeAgreement(a: Bookmark, b: Bookmark, xss: Value -> string)
    ensures Serialize(a, xss) == Serialize(b, xss) <==>
              a.id == b.id && a.url == b.url && a.rating == b.rating &&
              xss(a.title) == xss(b.title) && xss(a.description) == xss(b.description)
  {
  }

  /** `bookmarks.map(serializeBookmark)`. */
  function Listing(bs: seq<Bookmark>, xss: Value -> string): (r: seq<Serialized>)
    ensures |r| == |bs|
    ensures forall i :: 0 <= i < |bs| ==> r[i] == Serialize(bs[i], xss)
  {
    if bs == [] then [] else [Serialize(bs[0], xss)] + Listing(bs[1..], xss)
  }

  /** Listing a collection with one more record at the end, as an accepted
      POST leaves the store's sequence, gives the earlier listing followed by
      that record serialized. */
  lemma ListingAppend(bs: seq<Bookmark>, b: Bookmark, xss: Value -> string)
    ensures Listing(bs + [b], xss) == Listing(bs, xss) + [Serialize(b, xss)]
  {
  }

  // ---------------------------------------------------------------------
  // GET /bookmarks and GET /bookmarks/:id

  /** GET /bookmarks: status 200 and the records serialized, in their order. */
  function ListBookmarks(db: seq<Bookmark>, xss: Value -> string): (r: Response)
    ensures r.status == 200 && r.body.Many? && r.location == None
    ensures |r.body.bookmarks| == |db|
    ensures forall i :: 0 <= i < |db| ==> r.body.bookmarks[i] == Serialize(db[i], xss)
  {
    Response(200, Many(Listing(db, xss)), None)
  }

  /** The record lookup by id: the position of the first record with that id. */
  function IndexOf(db: seq<Bookmark>, id: string): (r: Option<nat>)
    ensures r.None? <==> !HasId(db, id)
    ensures r.Some? ==> r.value < |db| && db[r.value].id == id
    ensures r.Some? ==> forall j :: 0 <= j < r.value ==> db[j].id != id
  {
    if db == [] then None
    else if db[0].id == id then Some(0)
    else
      match IndexOf(db[1..], id)
      case None => None
      case Some(k) => Some(k + 1)
  }

  const NotFoundMessage: string := "Bookmark not found"

  /** GET /bookmarks/:id: 404 with `{error: {message: "Bookmark not found"}}`
      when no record has the id, otherwise 200 with the serialized record. */
  function GetBookmark(db: seq<Bookmark>, id: string, xss: Value -> string): (r: Response)
    ensures r.status == 404 <==> !HasId(db, id)
    ensures r.status == 404 ==> r.body == ErrorObject(NotFoundMessage) && r.location == None
    ensures r.status != 404 ==>
              r.status == 200 && r.location == None &&
              exists i :: 0 <= i < |db| && db[i].id == id && r.body == One(Serialize(db[i], xss))
  {
    match IndexOf(db, id)
    case None => Response(404, ErrorObject(NotFoundMessage), None)
    case Some(k) => Response(200, One(Serialize(db[k], xss)), None)
  }

  /** With unique ids, GET by a stored id returns exactly that record, serialized. */
  lemma GetStored(db: seq<Bookmark>, i: nat, xss: Value -> string)
    requires UniqueIds(db) && i < |db|
    ensures GetBookmark(db, db[i].id, xss) == Response(200, One(Serialize(db[i], xss)), None)
  {
  }

  // ---------------------------------------------------------------------
  // POST /bookmarks

  /** Why a create request was refused; each maps to one 400 message. */
  datatype Rejection = Required(field: string) | RatingOutOfRange | InvalidUrl

  /** The field a rejection is about. */
  function Subject(r: Rejection): string {
    match r
    case Required(f) => f
    case RatingOutOfRange => "rating"
    case InvalidUrl => "url"
  }

  /** The 400 text of a rejection; every text opens with the quoted name of
      the field it is about. */
  function Message(r: Rejection): (m: string)
    ensures |m| > |Subject(r)| + 1 && m[0] == '\'' && m[|Subject(r)| + 1] == '\''
    ensures m[1..|Subject(r)| + 1] == Subject(r)
  {
    match r
    case Required(f) => "'" + f + "' is required"
    case RatingOutOfRange => "'" + "rating" + "' must be a number between 0 and 5"
    case InvalidUrl => "'" + "url" + "' must be a valid URL"
  }

  /** The fields whose presence is checked, in the order they are checked. */
  const RequiredFields: seq<string> := ["title", "url", "rating"]

  /** `Number.isInteger(rating) && 0 <= rating <= 5`: exactly the numbers 0 to 5. */
  predicate RatingInRange(v: Value)
    ensures RatingInRange(v) <==> v in {Num(0.0), Num(1.0), Num(2.0), Num(3.0), Num(4.0), Num(5.0)}
  {
    IsInteger(v) && 0.0 <= v.x <= 5.0
  }

  /** The reference decision of POST /bookmarks: the first check that fails,
      or None when the request is accepted. */
  function CreateRejection(body: Payload, isWebUri: Value -> bool): (r: Option<Rejection>)
    ensures r.Some? && r.value.Required? ==> r.value.field in RequiredFields && !Truthy(Field(body, r.value.field))
    ensures r.None? ==>
              (forall f :: f in RequiredFields ==> Truthy(Field(body, f))) &&
              RatingInRange(Field(body, "rating")) && isWebUri(Field(body, "url"))
  {
    if !Truthy(Field(body, "title")) then Some(Required("title"))
    else if !Truthy(Field(body, "url")) then Some(Required("url"))
    else if !Truthy(Field(body, "rating")) then Some(Required("rating"))
    else if !RatingInRange(Field(body, "rating")) then Some(RatingOutOfRange)
    else if !isWebUri(Field(body, "url")) then Some(InvalidUrl)
    else None
  }

  /** The checks of the POST handler, run in the handler's order with early
      returns: presence of each required field, then the rating, then the url. */
  method CheckCreate(body: Payload, isWebUri: Value -> bool) returns (rejection: Option<Rejection>)
    ensures rejection == CreateRejection(body, isWebUri)
  {
    var i := 0;
    while i < |RequiredFields|
      invariant 0 <= i <= |RequiredFields|
      invariant forall j :: 0 <= j < i ==> Truthy(Field(body, RequiredFields[j]))
    {
      var field := RequiredFields[i];
      if !Truthy(Field(body, field)) {
        assert i > 0 ==> Truthy(Field(body, RequiredFields[0]));
        assert i > 1 ==> Truthy(Field(body, RequiredFields[1]));
        return Some(Required(field));
      }
      i := i + 1;
    }
    assert Truthy(Field(body, RequiredFields[0])) && Truthy(Field(body, RequiredFields[1])) && Truthy(Field(body, RequiredFields[2]));
    var rating := Field(body, "rating");
    if !IsInteger(rating) || rating.x < 0.0 || rating.x > 5.0 {
      return Some(RatingOutOfRange);
    }
    if !isWebUri(Field(body, "url")) {
      return Some(InvalidUrl);
    }
    return None;
  }

  /** The record an accepted request creates: the request's title, url,
      description and rating under the given id. */
  function NewBookmark(body: Payload, id: string): (b: Bookmark)
    requires RatingInRange(Field(body, "rating"))
    ensures b.id == id
    ensures b.title == Field(body, "title") && b.url == Field(body, "url")
    ensures b.description == Field(body, "description")
    ensures Field(body, "rating") == Num(b.rating as real) && 0 <= b.rating <= 5
  {
    Bookmark(id, Field(body, "title"), Field(body, "url"), Field(body, "description"), Field(body, "rating").x.Floor)
  }

  const LocationPrefix: string := "http://localhost:8000/bookmarks/"

  /** The shared in-memory store whose `bookmarks` array POST appends to. */
  class Store {
    var bookmarks: seq<Bookmark>

    constructor (initial: seq<Bookmark>)
      ensures bookmarks == initial
    {
      bookmarks := initial;
    }
  }

  /** POST /bookmarks. `newId` is the id `uuid()` mints; it is used only when
      the request is accepted. A rejected request answers 400 with the first
      failing check's message and leaves the store as it was; an accepted one
      appends exactly one record and answers 201 with its location and its
      serialized form. A fresh id keeps the store's ids unique. */
  method CreateBookmark(store: Store, body: Payload, newId: string, libs: Libraries) returns (response: Response)
    modifies store
    ensures CreateRejection(body, libs.isWebUri).Some? ==>
              response == Response(400, Text(Message(CreateRejection(body, libs.isWebUri).value)), None) &&
              store.bookmarks == old(store.bookmarks)
    ensures CreateRejection(body, libs.isWebUri).None? ==>
              response == Response(201, One(Serialize(NewBookmark(body, newId), libs.xss)), Some(LocationPrefix + newId)) &&
              store.bookmarks == old(store.bookmarks) + [NewBookmark(body, newId)]
    ensures UniqueIds(old(store.bookmarks)) && !HasId(old(store.bookmarks), newId) ==> UniqueIds(store.bookmarks)
  {
    var rejection := CheckCreate(body, libs.isWebUri);
    if rejection.Some? {
      return Response(400, Text(Message(rejection.value)), None);
    }
    var bookmark := NewBookmark(body, newId);
    store.bookmarks := store.bookmarks + [bookmark];
    response := Response(201, One(Serialize(bookmark, libs.xss)), Some(LocationPrefix + newId));
  }

  // ---------------------------------------------------------------------
  // Properties of the create decision

  /** Presence is checked in the order title, url, rating: field k is reported
      missing exactly when it is falsy and every field before it is truthy. */
  lemma PresenceOrder(body: Payload, isWebUri: Value -> bool, k: nat)
    requires k < |RequiredFields|
    ensures CreateRejection(body, isWebUri) == Some(Required(RequiredFields[k])) <==>
              !Truthy(Field(body, RequiredFields[k])) &&
              forall j :: 0 <= j < k ==> Truthy(Field(body, RequiredFields[j]))
  {
    assert RequiredFields[0] == "title" && RequiredFields[1] == "url" && RequiredFields[2] == "rating";
    assert "title" != "url" && "title" != "rating" && "url" != "rating";
  }

  /** A rating of 0 is falsy, so it is reported missing and never reaches the
      range check. */
  lemma ZeroRatingReportedMissing(body: Payload, isWebUri: Value -> bool)
    requires Truthy(Field(body, "title")) && Truthy(Field(body, "url"))
    requires Field(body, "rating") == Num(0.0)
    ensures CreateRejection(body, isWebUri) == Some(Required("rating"))
  {
  }

  /** Once every field is present, a rating that is not an integer in [0, 5]
      is reported whatever the url is: the rating check comes first. */
  lemma RatingCheckedBeforeUrl(body: Payload, isWebUri: Value -> bool)
    requires forall j :: 0 <= j < |RequiredFields| ==> Truthy(Field(body, RequiredFields[j]))
    ensures CreateRejection(body, isWebUri) == Some(RatingOutOfRange) <==> !RatingInRange(Field(body, "rating"))
  {
    assert Truthy(Field(body, RequiredFields[0])) && Truthy(Field(body, RequiredFields[1])) && Truthy(Field(body, RequiredFields[2]));
  }

  /** The url error is given exactly when every earlier check passed and
      `isWebUri` refuses the url. */
  lemma UrlCheckedLast(body: Payload, isWebUri: Value -> bool)
    ensures CreateRejection(body, isWebUri) == Some(InvalidUrl) <==>
              Truthy(Field(body, "title")) && Truthy(Field(body, "url")) &&
              Truthy(Field(body, "rating")) && RatingInRange(Field(body, "rating")) && !isWebUri(Field(body, "url"))
  {
  }

  const AcceptedRatings: set<Value> := {Num(1.0), Num(2.0), Num(3.0), Num(4.0), Num(5.0)}

  /** A request is accepted exactly when title and url are truthy, the url is
      a web URI and the rating is one of the integers 1 to 5. */
  lemma AcceptedRequests(body: Payload, isWebUri: Value -> bool)
    ensures CreateRejection(body, isWebUri).None? <==>
              Truthy(Field(body, "title")) && Truthy(Field(body, "url")) &&
              isWebUri(Field(body, "url")) && Field(body, "rating") in AcceptedRatings
  {
  }

  /** Every rejection has its own message, so the 400 text tells the client
      which check failed. */
  lemma {:induction false} MessagesDistinct(r1: Rejection, r2: Rejection)
    ensures Message(r1) == Message(r2) <==> r1 == r2
  {
    if r1 != r2 {
      var m1, m2 := Message(r1), Message(r2);
      match (r1, r2)
      case (Required(f), Required(g)) =>
        if |f| == |g| {
          assert m1[1..1 + |f|] == f != g == m2[1..1 + |g|];
        }
      case (Required(f), _) =>
        assert m1[|m1| - 1] == 'd' != m2[|m2| - 1];
      case (_, Required(g)) =>
        assert m2[|m2| - 1] == 'd' != m1[|m1| - 1];
      case _ =>
    }
  }

  /** Over the store's own sequence: after an accepted request with a fresh id,
      a lookup of the new id in the appended sequence finds the created record.
      (The GET handlers read the database, not this store.) */
  lemma AppendedIdFound(bs: seq<Bookmark>, body: Payload, newId: string, libs: Libraries)
    requires CreateRejection(body, libs.isWebUri).None?
    requires !HasId(bs, newId)
    ensures GetBookmark(bs + [NewBookmark(body, newId)], newId, libs.xss) ==
              Response(200, One(Serialize(NewBookmark(body, newId), libs.xss)), None)
  {
    var after := bs + [NewBookmark(body, newId)];
    assert after[|bs|].id == newId;
    assert forall j :: 0 <= j < |bs| ==> after[j].id != newId;
  }
}
