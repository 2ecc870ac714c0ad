/**
 * The relational tables behind the routes, with the lookups the routes issue
 * (`findUnique`, `findMany`, `count`) as functions over the table contents and
 * the inserts and updates as methods of the `Db` class that holds the tables.
 * Truck, wash-record and wash-image ids are auto-incremented; user ids are
 * text, as the session carries them.
 */
module Database {
  import opened Common

  /** The `UserRole` enum of the schema. */
  datatype Role = Manager | Washer | Driver

  function RoleName(r: Role): string {
    match r
    case Manager => "manager"
    case Washer => "washer"
    case Driver => "driver"
  }

  /** The enum value a string names; the database refuses any other string. */
  function RoleFromName(s: string): (r: Option<Role>)
    ensures r.Some? ==> RoleName(r.value) == s
  {
    if s == "manager" then Some(Manager)
    else if s == "washer" then Some(Washer)
    else if s == "driver" then Some(Driver)
    else None
  }

  /** Every role reads back from its name. */
  lemma RoleNameRoundTrip(r: Role)
    ensures RoleFromName(RoleName(r)) == Some(r)
  {
  }

  datatype User = User(
    id: string,
    email: string,
    fullName: string,
    role: Role,
    passwordHash: Option<string>,
    deletedAt: Option<int>)

  datatype Truck = Truck(id: nat, licensePlate: string, driverId: string)

  datatype WashType = Basic | Premium | Deluxe

  datatype ImageType = Before | After

  /** `price` is the Decimal amount in cents; `washDate` is a time in milliseconds. */
  datatype WashRecord = WashRecord(
    id: nat,
    truckId: nat,
    washerId: string,
    washType: WashType,
    price: int,
    notes: Option<string>,
    washDate: int)

  datatype WashImage = WashImage(id: nat, washRecordId: nat, imageType: ImageType, imageKey: string)

  /** Position of the row `findUnique({ where: { id } })` returns. */
  function UserIndex(users: seq<User>, id: string): (r: Option<nat>)
    ensures r.Some? ==> r.value < |users| && users[r.value].id == id
    ensures r.None? ==> forall i :: 0 <= i < |users| ==> users[i].id != id
  {
    if |users| == 0 then None
    else if users[|users| - 1].id == id then Some(|users| - 1)
    else UserIndex(users[..|users| - 1], id)
  }

  function FindUser(users: seq<User>, id: string): (r: Option<User>)
    ensures r.Some? ==> r.value in users && r.value.id == id
    ensures r.None? ==> forall u :: u in users ==> u.id != id
  {
    match UserIndex(users, id)
    case None => None
    case Some(i) => Some(users[i])
  }

  /** `findUnique({ where: { email } })` */
  function FindUserByEmail(users: seq<User>, email: string): (r: Option<User>)
    ensures r.Some? ==> r.value in users && r.value.email == email
    ensures r.None? ==> forall u :: u in users ==> u.email != email
  {
    if |users| == 0 then None
    else if users[0].email == email then Some(users[0])
    else FindUserByEmail(users[1..], email)
  }

  /** `truck.findUnique({ where: { licensePlate } })` */
  function FindTruckByPlate(trucks: seq<Truck>, plate: string): (r: Option<Truck>)
    ensures r.Some? ==> r.value in trucks && r.value.licensePlate == plate
    ensures r.None? ==> forall t :: t in trucks ==> t.licensePlate != plate
  {
    if |trucks| == 0 then None
    else if trucks[0].licensePlate == plate then Some(trucks[0])
    else FindTruckByPlate(trucks[1..], plate)
  }

  /** The image rows attached to one wash record, in table order. */
  function ImagesOf(images: seq<WashImage>, recordId: nat): seq<WashImage> {
    if |images| == 0 then []
    else (if images[0].washRecordId == recordId then [images[0]] else []) + ImagesOf(images[1..], recordId)
  }

  /** The selection holds exactly the rows that point at the record. */
  lemma {:induction false} ImagesOfMembers(images: seq<WashImage>, recordId: nat)
    ensures forall im :: im in ImagesOf(images, recordId) <==> im in images && im.washRecordId == recordId
  {
    if |images| > 0 {
      ImagesOfMembers(images[1..], recordId);
      assert images == [images[0]] + images[1..];
    }
  }

  /** Selecting a record's images distributes over appending rows. */
  lemma {:induction false} ImagesOfAppend(a: seq<WashImage>, b: seq<WashImage>, recordId: nat)
    ensures ImagesOf(a + b, recordId) == ImagesOf(a, recordId) + ImagesOf(b, recordId)
  {
    if |a| > 0 {
      assert (a + b)[1..] == a[1..] + b;
      ImagesOfAppend(a[1..], b, recordId);
    } else {
      assert a + b == b;
    }
  }

  predicate UniqueUserIds(users: seq<User>) {
    forall i, j :: 0 <= i < j < |users| ==> users[i].id != users[j].id
  }

  predicate UniqueEmails(users: seq<User>) {
    forall i, j :: 0 <= i < j < |users| ==> users[i].email != users[j].email
  }

  predicate UniquePlates(trucks: seq<Truck>) {
    forall i, j :: 0 <= i < j < |trucks| ==> trucks[i].licensePlate != trucks[j].licensePlate
  }

  /** Every truck id was handed out before `next`. */
  predicate TruckIdsBelow(trucks: seq<Truck>, next: nat) {
    forall i :: 0 <= i < |trucks| ==> trucks[i].id < next
  }

  predicate RecordIdsBelow(records: seq<WashRecord>, next: nat) {
    forall i :: 0 <= i < |records| ==> records[i].id < next
  }

  /** Image ids were handed out before `next`, and images only point at records already created. */
  predicate ImageIdsBelow(images: seq<WashImage>, next: nat, nextRecord: nat) {
    forall i :: 0 <= i < |images| ==> images[i].id < next && images[i].washRecordId < nextRecord
  }

  /** The database: one sequence per table and the next auto-increment values. */
  class Db {
    var users: seq<User>
    var trucks: seq<Truck>
    var washRecords: seq<WashRecord>
    var washImages: seq<WashImage>
    var nextTruckId: nat
    var nextRecordId: nat
    var nextImageId: nat

    /** The schema's unique constraints, and ids below their counters. */
    ghost predicate Valid()
      reads this
    {
      && UniqueUserIds(users)
      && UniqueEmails(users)
      && UniquePlates(trucks)
      && TruckIdsBelow(trucks, nextTruckId)
      && RecordIdsBelow(washRecords, nextRecordId)
      && ImageIdsBelow(washImages, nextImageId, nextRecordId)
    }

    constructor ()
      ensures Valid()
      ensures users == [] && trucks == [] && washRecords == [] && washImages == []
    {
      users, trucks, washRecords, washImages := [], [], [], [];
      nextTruckId, nextRecordId, nextImageId := 1, 1, 1;
    }

    /** `truck.create`, for a plate no truck has yet. */
    method CreateTruck(plate: string, driverId: string) returns (t: Truck)
      requires Valid()
      requires FindTruckByPlate(trucks, plate).None?
      modifies this
      ensures Valid()
      ensures t == Truck(old(nextTruckId), plate, driverId)
      ensures trucks == old(trucks) + [t]
      ensures FindTruckByPlate(trucks, plate) == Some(t)
      ensures users == old(users) && washRecords == old(washRecords) && washImages == old(washImages)
      ensures nextRecordId == old(nextRecordId) && nextImageId == old(nextImageId)
    {
      t := Truck(nextTruckId, plate, driverId);
      FindAppended(trucks, t);
      trucks := trucks + [t];
      nextTruckId := nextTruckId + 1;
    }

    /**
     * `washRecord.create` with its nested `images.create`: one record and its
     * two image rows, written together.
     */
    method CreateWashRecord(truckId: nat, washerId: string, washType: WashType, price: int,
                            notes: Option<string>, washDate: int, beforeKey: string, afterKey: string)
      returns (rec: WashRecord, images: seq<WashImage>)
      requires Valid()
      modifies this
      ensures Valid()
      ensures rec == WashRecord(old(nextRecordId), truckId, washerId, washType, price, notes, washDate)
      ensures images == [WashImage(old(nextImageId), rec.id, Before, beforeKey),
                         WashImage(old(nextImageId) + 1, rec.id, After, afterKey)]
      ensures washRecords == old(washRecords) + [rec]
      ensures washImages == old(washImages) + images
      ensures ImagesOf(washImages, rec.id) == images
      ensures users == old(users) && trucks == old(trucks) && nextTruckId == old(nextTruckId)
    {
      rec := WashRecord(nextRecordId, truckId, washerId, washType, price, notes, washDate);
      images := [WashImage(nextImageId, rec.id, Before, beforeKey),
                 WashImage(nextImageId + 1, rec.id, After, afterKey)];
      NewRecordImages(washImages, nextImageId, images, rec.id);
      RecordAppended(washRecords, rec, nextRecordId);
      washRecords, washImages, nextRecordId, nextImageId :=
        washRecords + [rec], washImages + images, nextRecordId + 1, nextImageId + 2;
    }

    /** `user.create`; a repeated id or email violates a unique constraint and nothing is written. */
    method InsertUser(u: User) returns (ok: bool)
      requires Valid()
      modifies this
      ensures Valid()
      ensures ok <==> FindUser(old(users), u.id).None? && FindUserByEmail(old(users), u.email).None?
      ensures users == if ok then old(users) + [u] else old(users)
      ensures trucks == old(trucks) && washRecords == old(washRecords) && washImages == old(washImages)
      ensures nextTruckId == old(nextTruckId) && nextRecordId == old(nextRecordId) && nextImageId == old(nextImageId)
    {
      ok := FindUser(users, u.id).None? && FindUserByEmail(users, u.email).None?;
      if ok {
        users := users + [u];
      }
    }

    /** `user.update` of the row at position `i`, keeping the unique constraints. */
    method UpdateUserAt(i: nat, u: User)
      requires Valid()
      requires i < |users| && u.id == users[i].id
      requires forall j :: 0 <= j < |users| && j != i ==> users[j].email != u.email
      modifies this
      ensures Valid()
      ensures users == old(users)[i := u]
      ensures trucks == old(trucks) && washRecords == old(washRecords) && washImages == old(washImages)
      ensures nextTruckId == old(nextTruckId) && nextRecordId == old(nextRecordId) && nextImageId == old(nextImageId)
    {
      users := users[i := u];
    }
  }

  lemma {:induction false} FindAppended(trucks: seq<Truck>, t: Truck)
    requires FindTruckByPlate(trucks, t.licensePlate).None?
    ensures FindTruckByPlate(trucks + [t], t.licensePlate) == Some(t)
  {
    if |trucks| > 0 {
      assert (trucks + [t])[1..] == trucks[1..] + [t];
      FindAppended(trucks[1..], t);
    }
  }

  lemma RecordAppended(records: seq<WashRecord>, rec: WashRecord, next: nat)
    requires RecordIdsBelow(records, next) && rec.id == next
    ensures RecordIdsBelow(records + [rec], next + 1)
  {
    var all := records + [rec];
    forall i | 0 <= i < |all| ensures all[i].id < next + 1 {
      if i < |records| { assert all[i] == records[i]; }
    }
  }

  /**
   * Appending a new record's two image rows: they are exactly the images of
   * that record, and the ids stay below the advanced counters.
   */
  lemma NewRecordImages(existing: seq<WashImage>, nextImage: nat, added: seq<WashImage>, recordId: nat)
    requires ImageIdsBelow(existing, nextImage, recordId)
    requires |added| == 2 && added[0].washRecordId == recordId && added[1].washRecordId == recordId
    requires added[0].id == nextImage && added[1].id == nextImage + 1
    ensures ImagesOf(existing + added, recordId) == added
    ensures ImageIdsBelow(existing + added, nextImage + 2, recordId + 1)
  {
    NoImagesYet(existing, nextImage, recordId);
    assert ImagesOf(added[1..], recordId) == added[1..] by {
      assert added[1..][1..] == [];
    }
    ImagesOfAppend(existing, added, recordId);
    var all := existing + added;
    forall i | 0 <= i < |all| ensures all[i].id < nextImage + 2 && all[i].washRecordId < recordId + 1 {
      if i < |existing| { assert all[i] == existing[i]; } else { assert all[i] == added[i - |existing|]; }
    }
  }

  /** No image row refers to a record id that has not been handed out yet. */
  lemma {:induction false} NoImagesYet(images: seq<WashImage>, nextImage: nat, recordId: nat)
    requires ImageIdsBelow(images, nextImage, recordId)
    ensures ImagesOf(images, recordId) == []
  {
    if |images| > 0 {
      NoImagesYet(images[1..], nextImage, recordId);
    }
  }
}
