/** The visit routes: registering a visit explicitly and listing one's own visitors. */
module VisitRoutes {
  import opened Wrappers
  import opened Models
  import VisitCrud

  /** What registering a visit answers: a notice for a self-visit, or the stored visit. */
  datatype RegisterReply = SelfVisitNotice | Registered(visit: Visit)

  /**
   * Registers that the authenticated user looked at another user's map.
   * `visitedUserEmail` is the query parameter, `None` when the request
   * lacks it. `normalize` is the address check of the visit document's
   * email field: `None` for a string that is not an address, otherwise the
   * address in normal form. The self-visit guard compares the raw parameter;
   * the visit stores the normalised address. The log only grows at its end.
   */
  function RegisterVisit(log: VisitCrud.VisitLog, user: User, visitedUserEmail: Option<string>,
                         normalize: string -> Option<Email>, now: Time): (r: (Result<RegisterReply, Status>, VisitCrud.VisitLog))
    ensures r.0 == Err(UnprocessableEntity) <==> visitedUserEmail.None?
    ensures r.0 == Ok(SelfVisitNotice) <==> visitedUserEmail == Some(user.email)
    ensures r.0 == Err(InternalServerError) <==>
      visitedUserEmail.Some? && visitedUserEmail.value != user.email && normalize(visitedUserEmail.value).None?
    ensures r.0.Err? || r.0 == Ok(SelfVisitNotice) ==> r.1 == log
    ensures r.0.Ok? && r.0.value.Registered? <==>
      visitedUserEmail.Some? && visitedUserEmail.value != user.email && normalize(visitedUserEmail.value).Some?
    ensures r.0.Ok? && r.0.value.Registered? ==>
      var v := r.0.value.visit;
      && visitedUserEmail.Some? && normalize(visitedUserEmail.value) == Some(v.visitedUserEmail)
      && |r.1| == |log| + 1 && r.1[..|log|] == log && r.1[|log|] == v
      && v.visitorEmail == user.email && v.visitorOauthId == user.oauthId && v.visitedAt == now
    ensures VisitCrud.ValidLog(log) ==> VisitCrud.ValidLog(r.1)
  {
    match visitedUserEmail
    case None => (Err(UnprocessableEntity), log)
    case Some(raw) =>
      if user.email == raw then (Ok(SelfVisitNotice), log)
      else
        match normalize(raw)
        case None => (Err(InternalServerError), log)
        case Some(e) =>
          var (log', v) := VisitCrud.CreateVisit(log, e, user.email, user.oauthId, now);
          (Ok(Registered(v)), log')
  }

  /** The visits the authenticated user's own map received: the 50 most recent, newest first. */
  function GetMyVisits(log: VisitCrud.VisitLog, user: User): (r: seq<Visit>)
    ensures forall v :: v in r ==> v.visitedUserEmail == user.email && v in log
    ensures VisitCrud.NewestFirst(r)
    ensures |r| <= 50
    ensures |VisitCrud.VisitsTo(log, user.email)| <= 50 ==> multiset(r) == multiset(VisitCrud.VisitsTo(log, user.email))
    ensures multiset(r) <= multiset(VisitCrud.VisitsTo(log, user.email))
    ensures |VisitCrud.VisitsTo(log, user.email)| > 50 ==> |r| == 50
    ensures forall v, w :: v in multiset(VisitCrud.VisitsTo(log, user.email)) - multiset(r) && w in r ==> v.visitedAt <= w.visitedAt
  {
    VisitCrud.GetUserVisitsKeepsMostRecent(log, user.email, VisitCrud.DefaultLimit);
    VisitCrud.GetUserVisits(log, user.email, VisitCrud.DefaultLimit)
  }

  /**
   * Registering a visit to another user's address makes the visitor show up
   * exactly once more among the visits the normalised address received, and
   * changes nobody else's. A missing parameter, the visitor's own address as
   * written, or a string that is not an address leaves the log as it was.
   */
  lemma RegisteredVisitCountsOnce(log: VisitCrud.VisitLog, visitor: User, target: Option<string>,
                                  normalize: string -> Option<Email>, now: Time, other: Email)
    ensures var (reply, log') := RegisterVisit(log, visitor, target, normalize, now);
      if target.None? || target.value == visitor.email || normalize(target.value).None? then log' == log
      else
        var e := normalize(target.value).value;
        && reply.Ok? && reply.value.Registered?
        && VisitCrud.VisitsTo(log', e) == VisitCrud.VisitsTo(log, e) + [reply.value.visit]
        && reply.value.visit.visitorEmail == visitor.email
        && (other != e ==> VisitCrud.VisitsTo(log', other) == VisitCrud.VisitsTo(log, other))
  {
    if target.Some? && target.value != visitor.email && normalize(target.value).Some? {
      var e := normalize(target.value).value;
      var (log', v) := VisitCrud.CreateVisit(log, e, visitor.email, visitor.oauthId, now);
      assert log' == log + [v];
      VisitCrud.VisitsToAppend(log, v, e);
      VisitCrud.VisitsToAppend(log, v, other);
    }
  }

  /**
   * The guard misses a self-visit written with a capitalised domain: the
   * address check maps it to the visitor's own address, and a visit to the
   * visitor's own map is logged.
   */
  lemma CaseVariantSelfVisitIsLogged()
    ensures var ana := User("ana@mail.com", "Ana", "google-1");
      var normalize := (s: string) => if s == "ana@MAIL.com" then Some("ana@mail.com") else Some(s);
      var (reply, log') := RegisterVisit([], ana, Some("ana@MAIL.com"), normalize, 0);
      && reply.Ok? && reply.value.Registered?
      && reply.value.visit.visitedUserEmail == ana.email
      && VisitCrud.VisitsTo(log', ana.email) == [reply.value.visit]
  {
    var ana := User("ana@mail.com", "Ana", "google-1");
    var normalize := (s: string) => if s == "ana@MAIL.com" then Some("ana@mail.com") else Some(s);
    var (reply, log') := RegisterVisit([], ana, Some("ana@MAIL.com"), normalize, 0);
    assert log' == [] + [reply.value.visit];
    VisitCrud.VisitsToAppend([], reply.value.visit, ana.email);
  }

  /**
   * Registration with the self-visit guard applied to the address the visit
   * would store, so that no spelling of the visitor's own address is logged.
   */
  function RegisterVisitIntended(log: VisitCrud.VisitLog, user: User, visitedUserEmail: Option<string>,
                                 normalize: string -> Option<Email>, now: Time): (r: (Result<RegisterReply, Status>, VisitCrud.VisitLog))
    ensures r.0 == Err(UnprocessableEntity) <==> visitedUserEmail.None?
    ensures r.0 == Err(InternalServerError) <==> visitedUserEmail.Some? && normalize(visitedUserEmail.value).None?
    ensures r.0 == Ok(SelfVisitNotice) <==> visitedUserEmail.Some? && normalize(visitedUserEmail.value) == Some(user.email)
    ensures r.0.Err? || r.0 == Ok(SelfVisitNotice) ==> r.1 == log
    ensures r.0.Ok? && r.0.value.Registered? <==>
      visitedUserEmail.Some? && normalize(visitedUserEmail.value).Some? && normalize(visitedUserEmail.value).value != user.email
    ensures r.0.Ok? && r.0.value.Registered? ==>
      var v := r.0.value.visit;
      && visitedUserEmail.Some? && normalize(visitedUserEmail.value) == Some(v.visitedUserEmail)
      && v.visitedUserEmail != user.email
      && |r.1| == |log| + 1 && r.1[..|log|] == log && r.1[|log|] == v
      && v.visitorEmail == user.email && v.visitorOauthId == user.oauthId && v.visitedAt == now
    ensures VisitCrud.ValidLog(log) ==> VisitCrud.ValidLog(r.1)
  {
    match visitedUserEmail
    case None => (Err(UnprocessableEntity), log)
    case Some(raw) =>
      match normalize(raw)
      case None => (Err(InternalServerError), log)
      case Some(e) =>
        if user.email == e then (Ok(SelfVisitNotice), log)
        else
          var (log', v) := VisitCrud.CreateVisit(log, e, user.email, user.oauthId, now);
          (Ok(Registered(v)), log')
  }

  /** With the guard on the stored address, registering never adds to the visitor's own received visits. */
  lemma IntendedLeavesOwnVisitsAlone(log: VisitCrud.VisitLog, user: User, target: Option<string>,
                                     normalize: string -> Option<Email>, now: Time)
    ensures var (_, log') := RegisterVisitIntended(log, user, target, normalize, now);
      VisitCrud.VisitsTo(log', user.email) == VisitCrud.VisitsTo(log, user.email)
  {
    var (reply, log') := RegisterVisitIntended(log, user, target, normalize, now);
    if reply.Ok? && reply.value.Registered? {
      assert log' == log + [reply.value.visit];
      VisitCrud.VisitsToAppend(log, reply.value.visit, user.email);
    }
  }

  /** For a parameter already in normal form, the corrected guard answers exactly as the route does. */
  lemma IntendedAgreesOnNormalAddresses(log: VisitCrud.VisitLog, user: User, target: Option<string>,
                                        normalize: string -> Option<Email>, now: Time)
    requires target.Some? ==> normalize(target.value) == Some(target.value)
    ensures RegisterVisitIntended(log, user, target, normalize, now) == RegisterVisit(log, user, target, normalize, now)
  {
  }
}
