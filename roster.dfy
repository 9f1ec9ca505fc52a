/**
 * The App component (frontend/src/App.jsx): the list of services, polled
 * from the API on mount and every 30 s, trimmed when a delete succeeds and
 * extended when the add-service modal reports a new service.
 */
module Roster {
  import opened Common
  import opened Api

  const ROSTER_POLL := 30000
  const ROSTER_ERROR := "Cannot reach API — is Docker running?"
  const DELETE_ERROR_PREFIX := "Delete failed: "

  /** `s.filter(x => x.id !== id)`. */
  function RemoveId(s: seq<Service>, id: int): (r: seq<Service>)
    ensures |r| <= |s|
  {
    if |s| == 0 then []
    else if s[0].id == id then RemoveId(s[1..], id)
    else [s[0]] + RemoveId(s[1..], id)
  }

  /** The filter keeps exactly the services with another id. */
  lemma {:induction false} RemoveIdMembers(s: seq<Service>, id: int, x: Service)
    ensures x in RemoveId(s, id) <==> x in s && x.id != id
  {
    if |s| > 0 {
      RemoveIdMembers(s[1..], id, x);
      assert s == [s[0]] + s[1..];
    }
  }

  /** Filtering a concatenation filters each part. */
  lemma {:induction false} RemoveIdAppend(a: seq<Service>, b: seq<Service>, id: int)
    ensures RemoveId(a + b, id) == RemoveId(a, id) + RemoveId(b, id)
  {
    if |a| == 0 {
      assert a + b == b;
    } else {
      var ab := a + b;
      assert ab[0] == a[0] && ab[1..] == a[1..] + b;
      RemoveIdAppend(a[1..], b, id);
      if a[0].id == id {
        assert RemoveId(ab, id) == RemoveId(a[1..] + b, id);
      } else {
        assert RemoveId(ab, id) == [a[0]] + RemoveId(a[1..] + b, id);
        assert RemoveId(a, id) == [a[0]] + RemoveId(a[1..], id);
      }
    }
  }

  /** Removing an id that is not on the list changes nothing. */
  lemma {:induction false} RemoveIdAbsent(s: seq<Service>, id: int)
    requires forall i :: 0 <= i < |s| ==> s[i].id != id
    ensures RemoveId(s, id) == s
  {
    if |s| > 0 {
      RemoveIdAbsent(s[1..], id);
      assert [s[0]] + s[1..] == s;
    }
  }

  /** A second delete of the same id is a no-op. */
  lemma RemoveIdIdempotent(s: seq<Service>, id: int)
    ensures RemoveId(RemoveId(s, id), id) == RemoveId(s, id)
  {
    var r := RemoveId(s, id);
    forall i | 0 <= i < |r| ensures r[i].id != id {
      RemoveIdMembers(s, id, r[i]);
    }
    RemoveIdAbsent(r, id);
  }

  /** Deletes of two ids give the same list in either order. */
  lemma {:induction false} RemoveIdCommutes(s: seq<Service>, a: int, b: int)
    ensures RemoveId(RemoveId(s, a), b) == RemoveId(RemoveId(s, b), a)
  {
    if |s| > 0 {
      var t := s[1..];
      RemoveIdCommutes(t, a, b);
      if s[0].id == a {
        assert RemoveId(s, a) == RemoveId(t, a);
        if s[0].id != b {
          assert RemoveId(s, b) == [s[0]] + RemoveId(t, b);
          assert RemoveId([s[0]] + RemoveId(t, b), a) == RemoveId(RemoveId(t, b), a);
        }
      } else if s[0].id == b {
        assert RemoveId(s, b) == RemoveId(t, b);
        assert RemoveId(s, a) == [s[0]] + RemoveId(t, a);
        assert RemoveId([s[0]] + RemoveId(t, a), b) == RemoveId(RemoveId(t, a), b);
      } else {
        assert RemoveId(s, a) == [s[0]] + RemoveId(t, a);
        assert RemoveId(s, b) == [s[0]] + RemoveId(t, b);
        assert ([s[0]] + RemoveId(t, a))[1..] == RemoveId(t, a);
        assert ([s[0]] + RemoveId(t, b))[1..] == RemoveId(t, b);
      }
    }
  }

  /** What the page body shows. */
  datatype View = Spinner | NoServicesYet | Cards(services: seq<Service>)

  class Dashboard {
    var services: seq<Service>
    var loading: bool
    var error: string
    var modal: bool

    // usePoller's closure and interval
    var cancelled: bool
    var nextRun: Option<int>
    var now: int
    var inFlight: nat
    /** Start times of all roster fetches so far. */
    ghost var runs: seq<int>

    ghost predicate Valid()
      reads this
    {
      |runs| >= 1
      && (forall i :: 0 <= i < |runs| ==> runs[i] == ROSTER_POLL * i)
      && now == runs[|runs| - 1]
      && (cancelled <==> nextRun.None?)
      && (!cancelled ==> nextRun == Some(ROSTER_POLL * |runs|))
    }

    /** Mount: empty list, spinner, first fetch started, interval armed. */
    constructor Mount()
      ensures Valid() && !cancelled
      ensures services == [] && loading && error == "" && !modal
      ensures runs == [0] && now == 0 && inFlight == 1
    {
      services, loading, error, modal := [], true, "", false;
      cancelled := false;
      now := 0;
      runs := [0];
      inFlight := 1;
      nextRun := Some(ROSTER_POLL);
    }

    /** The interval fires: the closure is not cancelled, so it fetches again. */
    method Tick()
      requires Valid() && !cancelled
      modifies this
      ensures Valid() && !cancelled
      ensures runs == old(runs) + [ROSTER_POLL * |old(runs)|] && now == ROSTER_POLL * |old(runs)|
      ensures inFlight == old(inFlight) + 1
      ensures services == old(services) && loading == old(loading) && error == old(error) && modal == old(modal)
    {
      now := nextRun.value;
      if !cancelled {
        runs := runs + [now];
        inFlight := inFlight + 1;
      }
      nextRun := Some(now + ROSTER_POLL);
    }

    /** Unmount: cancel the closure and clear the interval. */
    method Unmount()
      requires Valid()
      modifies this
      ensures Valid() && cancelled
      ensures runs == old(runs) && inFlight == old(inFlight)
      ensures services == old(services) && loading == old(loading) && error == old(error) && modal == old(modal)
    {
      cancelled := true;
      nextRun := None;
    }

    /**
     * A roster fetch settles. The result is applied whether or not the
     * closure was cancelled: a success replaces the list and clears the
     * banner, a failure shows the API-unreachable banner and keeps the list.
     */
    method RosterSettled(outcome: Result<seq<Service>, ApiError>)
      requires Valid() && inFlight > 0
      modifies this
      ensures Valid() && inFlight == old(inFlight) - 1 && !loading
      ensures outcome.Ok? ==> services == outcome.value && error == ""
      ensures outcome.Err? ==> services == old(services) && error == ROSTER_ERROR
      ensures modal == old(modal) && cancelled == old(cancelled) && runs == old(runs) && now == old(now)
    {
      inFlight := inFlight - 1;
      match outcome
      case Ok(data) =>
        services, error, loading := data, "", false;
      case Err(_) =>
        error, loading := ROSTER_ERROR, false;
    }

    /**
     * handleDelete(id) once its DELETE request settles: on success the
     * service leaves the list, on failure the banner says why.
     */
    method DeleteSettled(id: int, outcome: Result<(), ApiError>)
      requires Valid()
      modifies this
      ensures Valid()
      ensures outcome.Ok? ==> services == RemoveId(old(services), id) && error == old(error)
      ensures outcome.Err? ==> services == old(services) && error == DELETE_ERROR_PREFIX + outcome.error.Message()
      ensures loading == old(loading) && modal == old(modal)
      ensures cancelled == old(cancelled) && runs == old(runs) && now == old(now) && inFlight == old(inFlight)
    {
      match outcome
      case Ok(_) =>
        services := RemoveId(services, id);
      case Err(e) =>
        error := DELETE_ERROR_PREFIX + e.Message();
    }

    /** The "+ Add Service" button. */
    method OpenModal()
      requires Valid()
      modifies this
      ensures Valid() && modal
      ensures services == old(services) && loading == old(loading) && error == old(error)
      ensures cancelled == old(cancelled) && runs == old(runs) && now == old(now) && inFlight == old(inFlight)
    {
      modal := true;
    }

    /** The modal's onClose (Escape, backdrop, Cancel, ✕, or after a successful add). */
    method CloseModal()
      requires Valid()
      modifies this
      ensures Valid() && !modal
      ensures services == old(services) && loading == old(loading) && error == old(error)
      ensures cancelled == old(cancelled) && runs == old(runs) && now == old(now) && inFlight == old(inFlight)
    {
      modal := false;
    }

    /** The modal's onAdd: the created service is appended to the list. */
    method Added(svc: Service)
      requires Valid()
      modifies this
      ensures Valid()
      ensures services == old(services) + [svc]
      ensures loading == old(loading) && error == old(error) && modal == old(modal)
      ensures cancelled == old(cancelled) && runs == old(runs) && now == old(now) && inFlight == old(inFlight)
    {
      services := services + [svc];
    }

    /** Spinner until the first fetch settles, then the empty state or one card per service. */
    function Body(): (v: View)
      reads this
      ensures v == Spinner <==> loading
      ensures v.Cards? ==> v.services == services && |services| > 0
      ensures v == NoServicesYet <==> !loading && services == []
    {
      if loading then Spinner
      else if |services| == 0 then NoServicesYet
      else Cards(services)
    }
  }

  /**
   * A service added and then deleted leaves the list as it was, provided
   * its id was not on the list before.
   */
  lemma AddThenDelete(s: seq<Service>, svc: Service)
    requires forall i :: 0 <= i < |s| ==> s[i].id != svc.id
    ensures RemoveId(s + [svc], svc.id) == s
  {
    RemoveIdAppend(s, [svc], svc.id);
    RemoveIdAbsent(s, svc.id);
    assert RemoveId([svc], svc.id) == [];
  }
}
