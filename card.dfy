/**
 * ServiceCard (frontend/src/App.jsx): one service's card. Its effect loads
 * the service's history at once, every 3 s for the first 20 s, then every
 * 30 s; the header toggles the detail panel and the delete button opens a
 * confirmation popover. Time is an integer count of milliseconds since the
 * card mounted; a request's answer arrives later as `LoadSettled`.
 */
module Card {
  import opened Common
  import opened Metrics
  import opened Api

  const FAST_POLL := 3000
  const SLOW_POLL := 30000
  const FAST_DURATION := 20000
  /** The card asks for the newest 50 checks (`?limit=50`). */
  const HISTORY_LIMIT := 50
  const LOAD_ERROR := "Failed to load"

  /** Ticks of the fast interval that fire before the switch timeout: 3 s, ..., 18 s. */
  const FAST_TICKS := (FAST_DURATION - 1) / FAST_POLL

  /** When the card starts its k-th load (k = 0 is the load on mount). */
  function LoadSchedule(k: nat): (t: int)
    ensures t >= 0
    ensures k <= FAST_TICKS ==> t < FAST_DURATION
    ensures k > FAST_TICKS ==> t >= FAST_DURATION
  {
    if k <= FAST_TICKS then FAST_POLL * k
    else FAST_DURATION + SLOW_POLL * (k - FAST_TICKS - 1)
  }

  /**
   * The load times described directly: mount, each multiple of the fast
   * period before the switch, and the switch followed by the slow period.
   */
  predicate IsLoadTime(t: int)
  {
    (0 <= t < FAST_DURATION && t % FAST_POLL == 0)
    || (t >= FAST_DURATION && (t - FAST_DURATION) % SLOW_POLL == 0)
  }

  /** Loads start strictly one after the other. */
  lemma LoadScheduleIncreasing(i: nat, j: nat)
    requires i < j
    ensures LoadSchedule(i) < LoadSchedule(j)
  {
  }

  /** Every scheduled load falls on a load time ... */
  lemma LoadScheduleOnLoadTimes(k: nat)
    ensures IsLoadTime(LoadSchedule(k))
  {
    if k > FAST_TICKS {
      var t := LoadSchedule(k);
      assert t - FAST_DURATION == SLOW_POLL * (k - FAST_TICKS - 1);
    }
  }

  /** ... and every load time is the start of some load. */
  lemma LoadTimesScheduled(t: int)
    requires IsLoadTime(t)
    ensures exists k: nat :: LoadSchedule(k) == t
  {
    if t < FAST_DURATION {
      var k := t / FAST_POLL;
      assert LoadSchedule(k) == t;
    } else {
      var k := (t - FAST_DURATION) / SLOW_POLL + FAST_TICKS + 1;
      assert LoadSchedule(k) == t;
    }
  }

  /** The gap between consecutive loads: 3 s while fast, 2 s into the switch, 30 s after. */
  lemma LoadGaps(k: nat)
    ensures LoadSchedule(k + 1) - LoadSchedule(k)
         == if k < FAST_TICKS then FAST_POLL
            else if k == FAST_TICKS then FAST_DURATION - FAST_POLL * FAST_TICKS
            else SLOW_POLL
  {
  }

  /** Timer a is armed and due before timer b (or at the same time, when ties go to a). */
  predicate Before(a: Option<int>, b: Option<int>, tieToA: bool)
  {
    a.Some? && (b.None? || a.value < b.value || (tieToA && a.value == b.value))
  }

  /** Where a click lands on the card, as far as event propagation is concerned. */
  datatype Target =
    | NameArea       // left part of the header (status dot, name, URL)
    | Actions        // right part of the header outside the delete button; stops propagation
    | DeleteButton   // the "✕" button; stops propagation, disabled while deleting
    | Chevron        // the "▾" at the far right
    | PopoverBody    // inside the confirmation popover; stops propagation
    | PopoverCancel  // the popover's Cancel button
    | Elsewhere      // any other click that reaches the document unstopped: this card's expanded
                     // panel, the page, another card's header outside its action area

  class ServiceCard {
    const serviceId: int

    // React state
    var history: seq<CheckRecord>
    var loading: bool
    var fetchErr: string
    var expanded: bool
    var showDel: bool
    var deleting: bool

    // the effect's closure and timers (None = not scheduled)
    var cancelled: bool
    var fastDue: Option<int>
    var switchDue: Option<int>
    var slowDue: Option<int>
    var now: int
    var inFlight: nat
    /** Start times of all loads so far. */
    ghost var started: seq<int>

    /** The timers that are armed after n loads while the card is mounted. */
    predicate TimersAfter(n: nat)
      reads this
    {
      if n <= FAST_TICKS + 1 then
        fastDue == Some(FAST_POLL * n) && switchDue == Some(FAST_DURATION) && slowDue.None?
      else
        fastDue.None? && switchDue.None? && slowDue == Some(LoadSchedule(n))
    }

    ghost predicate Valid()
      reads this
    {
      |started| >= 1
      && (forall i :: 0 <= i < |started| ==> started[i] == LoadSchedule(i))
      && now == started[|started| - 1]
      && (cancelled ==> fastDue.None? && switchDue.None? && slowDue.None?)
      && (!cancelled ==> TimersAfter(|started|))
      && (deleting ==> !showDel)
    }

    /** Mount: initial state, the first load started, both timers armed. */
    constructor Mount(id: int)
      ensures Valid() && !cancelled
      ensures serviceId == id && history == [] && loading && fetchErr == ""
      ensures !expanded && !showDel && !deleting
      ensures started == [LoadSchedule(0)] && now == 0 && inFlight == 1
    {
      serviceId := id;
      history, loading, fetchErr := [], true, "";
      expanded, showDel, deleting := false, false, false;
      cancelled := false;
      now := 0;
      started := [0];
      inFlight := 1;
      fastDue, switchDue, slowDue := Some(FAST_POLL), Some(FAST_DURATION), None;
    }

    method StartLoad()
      modifies this
      ensures started == old(started) + [now] && inFlight == old(inFlight) + 1
      ensures now == old(now)
      ensures cancelled == old(cancelled)
      ensures fastDue == old(fastDue) && switchDue == old(switchDue) && slowDue == old(slowDue)
      ensures history == old(history) && loading == old(loading) && fetchErr == old(fetchErr)
      ensures expanded == old(expanded) && showDel == old(showDel) && deleting == old(deleting)
    {
      started := started + [now];
      inFlight := inFlight + 1;
    }

    /**
     * The browser runs the earliest armed timer: a fast tick loads; the
     * switch timeout stops the fast interval, loads and arms the slow one;
     * a slow tick loads. Whichever fires, the next load of the schedule starts.
     */
    method Fire()
      requires Valid() && !cancelled
      modifies this
      ensures Valid() && !cancelled
      ensures started == old(started) + [LoadSchedule(|old(started)|)]
      ensures now == LoadSchedule(|old(started)|) && inFlight == old(inFlight) + 1
      ensures history == old(history) && loading == old(loading) && fetchErr == old(fetchErr)
      ensures expanded == old(expanded) && showDel == old(showDel) && deleting == old(deleting)
    {
      if Before(fastDue, switchDue, false) && Before(fastDue, slowDue, true) {
        now := fastDue.value;
        fastDue := Some(now + FAST_POLL);
        StartLoad();
      } else if Before(switchDue, slowDue, true) {
        now := switchDue.value;
        switchDue := None;
        fastDue := None;
        if !cancelled {
          StartLoad();
          slowDue := Some(now + SLOW_POLL);
        }
      } else {
        now := slowDue.value;
        slowDue := Some(now + SLOW_POLL);
        StartLoad();
      }
    }

    /** Unmount (or a new service id): mark the closure cancelled and clear every timer. */
    method Unmount()
      requires Valid()
      modifies this
      ensures Valid() && cancelled
      ensures started == old(started) && inFlight == old(inFlight)
      ensures history == old(history) && loading == old(loading) && fetchErr == old(fetchErr)
      ensures expanded == old(expanded) && showDel == old(showDel) && deleting == old(deleting)
    {
      cancelled := true;
      fastDue, switchDue, slowDue := None, None, None;
    }

    /**
     * One load's request settles. Unless the closure was cancelled, a
     * success replaces the history and clears the error, a failure shows
     * "Failed to load" and keeps the old history; either way loading ends.
     */
    method LoadSettled(outcome: Result<seq<CheckRecord>, ApiError>)
      requires Valid() && inFlight > 0
      modifies this
      ensures Valid() && inFlight == old(inFlight) - 1
      ensures cancelled ==> history == old(history) && loading == old(loading) && fetchErr == old(fetchErr)
      ensures !cancelled && outcome.Ok? ==> history == outcome.value && fetchErr == "" && !loading
      ensures !cancelled && outcome.Err? ==> history == old(history) && fetchErr == LOAD_ERROR && !loading
      ensures cancelled == old(cancelled) && started == old(started) && now == old(now)
      ensures fastDue == old(fastDue) && switchDue == old(switchDue) && slowDue == old(slowDue)
      ensures expanded == old(expanded) && showDel == old(showDel) && deleting == old(deleting)
    {
      inFlight := inFlight - 1;
      if !cancelled {
        match outcome
        case Ok(data) =>
          history, fetchErr, loading := data, "", false;
        case Err(_) =>
          fetchErr, loading := LOAD_ERROR, false;
      }
    }

    /**
     * A click. The name area and the chevron toggle the panel; the delete
     * button, unless disabled, toggles the popover; Cancel closes it; a
     * click that reaches the document outside the popover also closes it.
     */
    method Click(target: Target)
      requires Valid()
      modifies this
      ensures Valid()
      ensures expanded == (if target == NameArea || target == Chevron then !old(expanded) else old(expanded))
      ensures showDel == match target
        case NameArea | Chevron | PopoverCancel | Elsewhere => false
        case DeleteButton => if old(deleting) then old(showDel) else !old(showDel)
        case Actions | PopoverBody => old(showDel)
      ensures deleting == old(deleting)
      ensures history == old(history) && loading == old(loading) && fetchErr == old(fetchErr)
      ensures cancelled == old(cancelled) && started == old(started) && now == old(now) && inFlight == old(inFlight)
      ensures fastDue == old(fastDue) && switchDue == old(switchDue) && slowDue == old(slowDue)
    {
      match target
      case NameArea =>
        expanded := !expanded;
        showDel := false;
      case Chevron =>
        expanded := !expanded;
        showDel := false;
      case DeleteButton =>
        if !deleting {
          showDel := !showDel;
        }
      case PopoverCancel =>
        showDel := false;
      case Elsewhere =>
        showDel := false;
      case Actions =>
      case PopoverBody =>
    }

    /**
     * The popover's Delete: close the popover, mark the card as deleting
     * (for good) and hand the id to the dashboard's delete handler.
     */
    method ConfirmDelete() returns (id: int)
      requires Valid() && showDel
      modifies this
      ensures Valid() && id == serviceId
      ensures !showDel && deleting && !old(deleting)
      ensures expanded == old(expanded)
      ensures history == old(history) && loading == old(loading) && fetchErr == old(fetchErr)
      ensures cancelled == old(cancelled) && started == old(started) && now == old(now) && inFlight == old(inFlight)
      ensures fastDue == old(fastDue) && switchDue == old(switchDue) && slowDue == old(slowDue)
    {
      showDel := false;
      deleting := true;
      id := serviceId;
    }

    /** The status dot: a spinner while loading, else the latest status, DOWN when there is none. */
    function Indicator(): (d: Option<Status>)
      reads this
      ensures d.None? <==> loading
      ensures d == Some(Up) <==> !loading && |history| > 0 && IsUp(history[0])
    {
      if loading then None
      else if |history| > 0 then Some(history[0].status)
      else Some(Down)
    }
  }
}
