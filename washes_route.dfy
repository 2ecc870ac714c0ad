/**
 * `/api/washes`: a washer logs a wash (`POST`) or lists their own washes
 * (`GET`). `POST` checks the caller and the request in a fixed order, finds
 * or creates the truck for the plate, then writes the record with its
 * "before" and "after" photos.
 */
module WashesRoute {
  import opened Common
  import opened Sessions
  import opened Database

  /**
   * The JSON body. A field that is absent is represented by its falsy value
   * ("" or 0), which the route treats the same way.
   */
  datatype WashBody = WashBody(
    licensePlate: string,
    washType: string,
    price: int,
    notes: Option<string>,
    driverId: string,
    beforeImage: string,
    afterImage: string)

  datatype PostResponse =
    | Created(record: WashRecord, truck: Truck, images: seq<WashImage>)
    | Failure(status: nat, error: string)

  const UnauthorizedError := "Unauthorized"
  const MissingFieldsError := "Missing required fields"
  const InvalidDriverError := "Invalid driver selected"
  const InvalidWashTypeError := "Invalid wash type"
  const CreateError := "Failed to create wash record"

  /** `!licensePlate || !washType || !price || !driverId || !beforeImage || !afterImage` */
  predicate MissingField(b: WashBody) {
    b.licensePlate == "" || b.washType == "" || b.price == 0 || b.driverId == ""
    || b.beforeImage == "" || b.afterImage == ""
  }

  /** The three accepted wash types, by name. */
  function WashTypeFromName(s: string): (t: Option<WashType>)
    ensures t.Some? <==> s in {"basic", "premium", "deluxe"}
  {
    if s == "basic" then Some(Basic)
    else if s == "premium" then Some(Premium)
    else if s == "deluxe" then Some(Deluxe)
    else None
  }

  /** `user.findUnique({ where: { id: driverId, role: 'driver' } })` */
  function FindDriver(users: seq<User>, id: string): (r: Option<User>)
    ensures r.Some? ==> r.value in users && r.value.id == id && r.value.role == Driver
    ensures r.None? && UniqueUserIds(users) ==> forall u :: u in users && u.id == id ==> u.role != Driver
  {
    match FindUser(users, id)
    case Some(u) => if u.role == Driver then Some(u) else None
    case None => None
  }

  /** Result of the checks that precede any write. */
  datatype Checked =
    | Reject(status: nat, error: string)
    | Accept(body: WashBody, driver: User, washType: WashType)

  /** The guards of `POST`, in the order the route runs them. */
  function CheckRequest(session: Option<Session>, body: Option<WashBody>, users: seq<User>): (c: Checked)
    ensures c.Accept? ==>
      && HasRole(session, WasherRole)
      && body == Some(c.body)
      && !MissingField(c.body)
      && FindDriver(users, c.body.driverId) == Some(c.driver)
      && WashTypeFromName(c.body.washType) == Some(c.washType)
    ensures c.Reject? ==> c.status in {400, 401, 500}
  {
    if !HasRole(session, WasherRole) then Reject(401, UnauthorizedError)
    else if body.None? then Reject(500, CreateError)
    else
      var b := body.value;
      if MissingField(b) then Reject(400, MissingFieldsError)
      else match FindDriver(users, b.driverId)
        case None => Reject(400, InvalidDriverError)
        case Some(driver) =>
          match WashTypeFromName(b.washType)
          case None => Reject(400, InvalidWashTypeError)
          case Some(t) => Accept(b, driver, t)
  }

  /** A caller who is not a signed-in washer is refused before the body or any table is read. */
  lemma UnauthorizedFirst(session: Option<Session>, body: Option<WashBody>, users: seq<User>)
    requires !HasRole(session, WasherRole)
    ensures CheckRequest(session, body, users) == Reject(401, UnauthorizedError)
  {
  }

  /** A missing field (a zero price included) is refused before any lookup: the user table does not matter. */
  lemma MissingFieldBeforeLookup(session: Option<Session>, b: WashBody, u1: seq<User>, u2: seq<User>)
    requires HasRole(session, WasherRole) && MissingField(b)
    ensures CheckRequest(session, Some(b), u1) == CheckRequest(session, Some(b), u2) == Reject(400, MissingFieldsError)
  {
  }

  /** The driver is checked before the wash type: a bad driver is reported even when the type is bad too. */
  lemma DriverBeforeWashType(session: Option<Session>, b: WashBody, users: seq<User>)
    requires HasRole(session, WasherRole) && !MissingField(b)
    ensures FindDriver(users, b.driverId).None? ==> CheckRequest(session, Some(b), users) == Reject(400, InvalidDriverError)
    ensures FindDriver(users, b.driverId).Some? && WashTypeFromName(b.washType).None? ==>
      CheckRequest(session, Some(b), users) == Reject(400, InvalidWashTypeError)
  {
  }

  /**
   * Once the fields are present, the driver exists and the type is known,
   * the request is accepted: the price is only checked for being non-zero,
   * so a negative price is accepted too.
   */
  lemma AcceptedWhenChecksPass(session: Option<Session>, b: WashBody, users: seq<User>)
    requires HasRole(session, WasherRole) && !MissingField(b)
    requires FindDriver(users, b.driverId).Some? && WashTypeFromName(b.washType).Some?
    ensures CheckRequest(session, Some(b), users)
         == Accept(b, FindDriver(users, b.driverId).value, WashTypeFromName(b.washType).value)
  {
  }

  /** `truck.findUnique({ where: { licensePlate } })`, then `truck.create` when there is none. */
  method FindOrCreateTruck(db: Db, plate: string, driverId: string) returns (truck: Truck)
    requires db.Valid()
    modifies db
    ensures db.Valid()
    ensures var existing := FindTruckByPlate(old(db.trucks), plate);
      if existing.Some? then truck == existing.value && db.trucks == old(db.trucks)
      else truck == Truck(old(db.nextTruckId), plate, driverId) && db.trucks == old(db.trucks) + [truck]
    ensures db.users == old(db.users) && db.washRecords == old(db.washRecords) && db.washImages == old(db.washImages)
    ensures db.nextRecordId == old(db.nextRecordId) && db.nextImageId == old(db.nextImageId)
  {
    var existing := FindTruckByPlate(db.trucks, plate);
    if existing.Some? {
      truck := existing.value;
    } else {
      truck := db.CreateTruck(plate, driverId);
    }
  }

  /**
   * `POST /api/washes`. Rejections write nothing. An accepted request reuses
   * the truck already registered for the plate (driver unchanged) or inserts
   * one for the named driver, then connects the record to the caller: if the
   * caller's id names no user the record is not written and the answer is
   * 500, but a truck inserted just before stays.
   */
  method Post(db: Db, session: Option<Session>, body: Option<WashBody>, now: int) returns (r: PostResponse)
    requires db.Valid()
    modifies db
    ensures db.Valid()
    ensures db.users == old(db.users)
    ensures var c := CheckRequest(session, body, old(db.users));
      c.Reject? ==>
        (r == Failure(c.status, c.error) && db.trucks == old(db.trucks)
         && db.washRecords == old(db.washRecords) && db.washImages == old(db.washImages))
    ensures var c := CheckRequest(session, body, old(db.users));
      c.Accept? ==>
        var existing := FindTruckByPlate(old(db.trucks), c.body.licensePlate);
        var truck := if existing.Some? then existing.value
                     else Truck(old(db.nextTruckId), c.body.licensePlate, c.driver.id);
        && db.trucks == old(db.trucks) + (if existing.Some? then [] else [truck])
        && var washerId := GateUser(session, WasherRole).id;
        if washerId.None? || FindUser(old(db.users), washerId.value).None? then
          r == Failure(500, CreateError)
          && db.washRecords == old(db.washRecords) && db.washImages == old(db.washImages)
        else
          var id := old(db.nextRecordId);
          && r == Created(WashRecord(id, truck.id, washerId.value, c.washType, c.body.price, c.body.notes, now),
                          truck,
                          [WashImage(old(db.nextImageId), id, Before, c.body.beforeImage),
                           WashImage(old(db.nextImageId) + 1, id, After, c.body.afterImage)])
          && db.washRecords == old(db.washRecords) + [r.record]
          && db.washImages == old(db.washImages) + r.images
          && ImagesOf(db.washImages, id) == r.images
  {
    var c := CheckRequest(session, body, db.users);
    if c.Reject? {
      return Failure(c.status, c.error);
    }
    r := RecordWash(db, c, GateUser(session, WasherRole).id, now);
  }

  /** The writes of an accepted `POST`: the truck, then the record connected to the washer. */
  method RecordWash(db: Db, c: Checked, washerId: Option<string>, now: int) returns (r: PostResponse)
    requires db.Valid() && c.Accept?
    modifies db
    ensures db.Valid()
    ensures db.users == old(db.users)
    ensures var existing := FindTruckByPlate(old(db.trucks), c.body.licensePlate);
      var truck := if existing.Some? then existing.value
                   else Truck(old(db.nextTruckId), c.body.licensePlate, c.driver.id);
      && db.trucks == old(db.trucks) + (if existing.Some? then [] else [truck])
      && if washerId.None? || FindUser(old(db.users), washerId.value).None? then
        r == Failure(500, CreateError)
        && db.washRecords == old(db.washRecords) && db.washImages == old(db.washImages)
      else
        var id := old(db.nextRecordId);
        && r == Created(WashRecord(id, truck.id, washerId.value, c.washType, c.body.price, c.body.notes, now),
                        truck,
                        [WashImage(old(db.nextImageId), id, Before, c.body.beforeImage),
                         WashImage(old(db.nextImageId) + 1, id, After, c.body.afterImage)])
        && db.washRecords == old(db.washRecords) + [r.record]
        && db.washImages == old(db.washImages) + r.images
        && ImagesOf(db.washImages, id) == r.images
  {
    var b := c.body;
    var truck := FindOrCreateTruck(db, b.licensePlate, c.driver.id);
    if washerId.None? || FindUser(db.users, washerId.value).None? {
      return Failure(500, CreateError);
    }
    var rec, images := db.CreateWashRecord(truck.id, washerId.value, c.washType, b.price, b.notes, now,
                                           b.beforeImage, b.afterImage);
    r := Created(rec, truck, images);
  }

  // GET

  /** Each record is at least as recent as the one after it. */
  predicate SortedByDateDesc(s: seq<WashRecord>) {
    forall i :: 0 < i < |s| ==> s[i - 1].washDate >= s[i].washDate
  }

  /** Newest first, stated for every pair and not only neighbours. */
  lemma {:induction false} SortedPairwise(s: seq<WashRecord>, i: int, j: int)
    requires SortedByDateDesc(s) && 0 <= i <= j < |s|
    ensures s[i].washDate >= s[j].washDate
    decreases j - i
  {
    if i < j {
      SortedPairwise(s, i + 1, j);
    }
  }

  /** `where: { washerId }`: the records of one washer, in table order. */
  function RecordsOf(records: seq<WashRecord>, washerId: string): (r: seq<WashRecord>)
    ensures forall x :: x in r <==> x in records && x.washerId == washerId
    ensures |r| <= |records|
  {
    if |records| == 0 then []
    else (if records[0].washerId == washerId then [records[0]] else []) + RecordsOf(records[1..], washerId)
  }

  function InsertByDate(x: WashRecord, s: seq<WashRecord>): (r: seq<WashRecord>)
    requires SortedByDateDesc(s)
    ensures SortedByDateDesc(r)
    ensures multiset(r) == multiset(s) + multiset{x}
    ensures |r| == |s| + 1 && (r[0] == x || (|s| > 0 && r[0] == s[0]))
  {
    if |s| == 0 || x.washDate >= s[0].washDate then [x] + s
    else
      var rest := InsertByDate(x, s[1..]);
      assert s == [s[0]] + s[1..];
      [s[0]] + rest
  }

  /** `orderBy: { washDate: 'desc' }`: newest first. */
  function SortByDateDesc(s: seq<WashRecord>): (r: seq<WashRecord>)
    ensures SortedByDateDesc(r)
    ensures multiset(r) == multiset(s)
  {
    if |s| == 0 then []
    else
      assert s == [s[0]] + s[1..];
      InsertByDate(s[0], SortByDateDesc(s[1..]))
  }

  datatype ListResponse = Records(records: seq<WashRecord>) | ListFailure(status: nat, error: string)

  /**
   * `GET /api/washes`. An id of `undefined` in a Prisma `where` is no
   * condition at all, so a session without an id would list every record.
   */
  function Get(session: Option<Session>, records: seq<WashRecord>): (r: ListResponse)
    ensures !HasRole(session, WasherRole) <==> r == ListFailure(401, UnauthorizedError)
    ensures HasRole(session, WasherRole) ==> r.Records?
    ensures r.Records? ==> SortedByDateDesc(r.records)
    ensures r.Records? && GateUser(session, WasherRole).id.Some? ==>
      var id := GateUser(session, WasherRole).id.value;
      multiset(r.records) == multiset(RecordsOf(records, id))
      && forall x :: x in r.records <==> x in records && x.washerId == id
  {
    if !HasRole(session, WasherRole) then ListFailure(401, UnauthorizedError)
    else
      var id := GateUser(session, WasherRole).id;
      var mine := if id.Some? then RecordsOf(records, id.value) else records;
      var sorted := SortByDateDesc(mine);
      assert forall x :: x in sorted <==> x in mine by {
        forall x ensures x in sorted <==> x in mine {
          assert x in sorted <==> x in multiset(sorted);
          assert x in mine <==> x in multiset(mine);
        }
      }
      Records(sorted)
  }
}
