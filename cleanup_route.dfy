/** `POST /api/cleanup`: a manager starts the sweep of old photos. */
module CleanupRoute {
  import opened Common
  import opened Numerals
  import opened Sessions
  import opened CleanupS3

  /** The JSON body; `daysOld` is absent or a whole number. */
  datatype CleanupBody = CleanupBody(daysOld: Option<int>)

  datatype Response = Message(text: string) | Failure(status: nat, error: string)

  const UnauthorizedError := "Unauthorized"
  const InvalidDaysError := "Invalid daysOld parameter"
  const CleanupError := "Failed to cleanup old images"

  /** `!daysOld || daysOld < 1` rejects; so a usable value is present and at least 1. */
  predicate ValidDays(daysOld: Option<int>) {
    daysOld.Some? && daysOld.value != 0 && !(daysOld.value < 1)
  }

  function SuccessMessage(daysOld: nat): string {
    "Successfully initiated cleanup of images older than " + NatToString(daysOld) + " days"
  }

  function Post(session: Option<Session>, body: Option<CleanupBody>, now: int,
                list: string -> Listing, delete: seq<string> -> bool): (r: Response)
    ensures r.Message? ==> HasRole(session, ManagerRole) && body.Some? && ValidDays(body.value.daysOld)
    ensures r.Failure? ==> r.status in {400, 401, 500}
  {
    if !HasRole(session, ManagerRole) then Failure(401, UnauthorizedError)
    else if body.None? then Failure(500, CleanupError)
    else if !ValidDays(body.value.daysOld) then Failure(400, InvalidDaysError)
    else
      var days := body.value.daysOld.value;
      match CleanupOldImages(CleanupOptions(Some(days), None), now, list, delete)
      case Threw => Failure(500, CleanupError)
      case _ => Message(SuccessMessage(days))
  }

  /** Without a manager session the answer is 401 and storage is never touched. */
  lemma UnauthorizedDoesNotRun(session: Option<Session>, body: Option<CleanupBody>, now: int,
                               l1: string -> Listing, d1: seq<string> -> bool,
                               l2: string -> Listing, d2: seq<string> -> bool)
    requires !HasRole(session, ManagerRole)
    ensures Post(session, body, now, l1, d1) == Post(session, body, now, l2, d2) == Failure(401, UnauthorizedError)
  {
  }

  /** A missing, zero or negative `daysOld` is a 400 and storage is never touched. */
  lemma InvalidDaysDoesNotRun(session: Option<Session>, daysOld: Option<int>, now: int,
                              l1: string -> Listing, d1: seq<string> -> bool,
                              l2: string -> Listing, d2: seq<string> -> bool)
    requires HasRole(session, ManagerRole)
    requires daysOld.None? || daysOld.value < 1
    ensures Post(session, Some(CleanupBody(daysOld)), now, l1, d1)
         == Post(session, Some(CleanupBody(daysOld)), now, l2, d2)
         == Failure(400, InvalidDaysError)
  {
  }

  /**
   * A valid request runs the sweep with that `daysOld` and the default prefix;
   * it answers with the message naming that number of days unless the sweep threw.
   */
  lemma ValidDaysRuns(session: Option<Session>, days: int, now: int,
                      list: string -> Listing, delete: seq<string> -> bool)
    requires HasRole(session, ManagerRole) && days >= 1
    ensures var r := Post(session, Some(CleanupBody(Some(days))), now, list, delete);
      var sweep := CleanupOldImages(CleanupOptions(Some(days), Some("washes")), now, list, delete);
      (sweep.Threw? ==> r == Failure(500, CleanupError))
      && (!sweep.Threw? ==> r == Message(SuccessMessage(days)))
  {
  }

  /** The number in the message reads back as the requested `daysOld`. */
  lemma MessageNamesDays(days: nat)
    ensures var m := SuccessMessage(days);
      var n := |NatToString(days)|;
      |m| == 52 + n + 5 && ParseNat(m[52..52 + n]) == Some(days)
  {
    var digits := NatToString(days);
    var m := SuccessMessage(days);
    assert m[52..52 + |digits|] == digits;
    ParsePrinted(days);
  }
}
