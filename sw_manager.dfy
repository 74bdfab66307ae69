/**
 * The page-side service-worker session: the module-level `registration`
 * and `updateCheckInterval`, the update banner and the reload it leads to.
 * Calls into the browser are recorded as effects in order; the browser's
 * answers (whether service workers are supported, the registration, the
 * interval id, worker state changes) are parameters.
 */
module ServiceWorkerManager {
  import opened Wrappers
  import Version

  type WorkerId = nat

  /** The worker slots of a `ServiceWorkerRegistration`. */
  datatype Registration = Registration(active: Option<WorkerId>, installing: Option<WorkerId>, waiting: Option<WorkerId>)

  /** The states a worker reports through `statechange`. */
  datatype WorkerState = Installing | Installed | Activating | Activated | Redundant

  datatype Message = SkipWaitingMessage | GetVersionMessage

  /** Calls the session makes into the browser, in the order it makes them. */
  datatype Effect =
    | UpdateRequested                        // registration.update()
    | IntervalStarted(id: nat)               // window.setInterval(checkForUpdates, 1 hour)
    | IntervalCleared(id: nat)               // clearInterval(id)
    | Posted(worker: WorkerId, message: Message)
    | Unregistered                           // registration.unregister()

  /** The hourly update check period in milliseconds. */
  const UpdateCheckPeriod: nat := 60 * 60 * 1000

  /** The worker `getServiceWorkerVersion` asks: the active one, else the installing one, else the waiting one. */
  function SelectWorker(r: Registration): (w: Option<WorkerId>)
    ensures r.active.Some? ==> w == r.active
    ensures r.active.None? && r.installing.Some? ==> w == r.installing
    ensures r.active.None? && r.installing.None? ==> w == r.waiting
    ensures w.None? <==> r.active.None? && r.installing.None? && r.waiting.None?
  {
    if r.active.Some? then r.active
    else if r.installing.Some? then r.installing
    else r.waiting
  }

  /** The first step of `getServiceWorkerVersion`: an answer now, or a question posted to a worker. */
  datatype VersionQuery = Answered(version: string) | Asked(worker: WorkerId)

  /** What settles the version promise: the worker's reply (its `version` field, if any) or the one-second timeout. */
  datatype VersionEvent = Reply(version: Option<string>) | Timeout

  /** The value an event resolves the promise with: a non-empty reply version, else `APP_VERSION`. */
  function EventValue(e: VersionEvent): (v: string)
    ensures e.Reply? && e.version.Some? && e.version.value != "" ==> v == e.version.value
    ensures e.Timeout? || e.version.None? || e.version.value == "" ==> v == Version.AppVersion
  {
    match e
    case Reply(Some(v)) => if v != "" then v else Version.AppVersion
    case _ => Version.AppVersion
  }

  /** The value of a promise fed `events` in order after having settled with `settled` (if it had). */
  function Settle(settled: Option<string>, events: seq<VersionEvent>): (r: Option<string>)
    ensures r.None? <==> settled.None? && events == []
    decreases |events|
  {
    if events == [] then settled
    else Settle(if settled.Some? then settled else Some(EventValue(events[0])), events[1..])
  }

  /** The promise settles once: the first event decides, whatever follows. */
  lemma {:induction false} FirstEventDecides(events: seq<VersionEvent>)
    requires |events| > 0
    ensures Settle(None, events) == Some(EventValue(events[0]))
  {
    SettledStays(EventValue(events[0]), events[1..]);
  }

  /** Once settled, no later event changes the value. */
  lemma {:induction false} SettledStays(v: string, events: seq<VersionEvent>)
    ensures Settle(Some(v), events) == Some(v)
    decreases |events|
  {
    if events != [] {
      SettledStays(v, events[1..]);
    }
  }

  /** The settled version is the reply's version or `APP_VERSION`. */
  lemma SettledVersionSource(events: seq<VersionEvent>)
    requires |events| > 0
    ensures Settle(None, events).Some?
    ensures var v := Settle(None, events).value;
      v == Version.AppVersion || (events[0].Reply? && events[0].version == Some(v))
  {
    FirstEventDecides(events);
  }

  /** The version promise of `getServiceWorkerVersion`, settled by whichever callback fires first. */
  class VersionPromise {
    var result: Option<string>

    constructor ()
      ensures result.None?
    {
      result := None;
    }

    /** `resolve(v)`: only the first call has an effect. */
    method Resolve(v: string)
      modifies this
      ensures result == if old(result).Some? then old(result) else Some(v)
    {
      if result.None? {
        result := Some(v);
      }
    }

    /** `port1.onmessage` or the timeout callback. */
    method Deliver(e: VersionEvent)
      modifies this
      ensures result == Settle(old(result), [e])
    {
      Resolve(EventValue(e));
    }
  }

  /** The page's service-worker session (the module-level state of the manager). */
  class Session {
    var registration: Option<Registration>
    var updateCheckInterval: Option<nat>
    /** `controllerchange` listeners added on `navigator.serviceWorker`. */
    var controllerListeners: nat
    /** `updatefound` listeners added on the registration. */
    var updateFoundListeners: nat
    /** Workers with a `statechange` listener from an `updatefound` event. */
    var watched: set<WorkerId>
    var bannerShown: bool
    var reloadRequested: bool
    var effects: seq<Effect>

    /**
     * Every listener and the interval exist only once a registration does,
     * and so only then can the banner be shown or a reload be requested.
     */
    predicate Valid()
      reads this
    {
      (updateCheckInterval.Some? || controllerListeners > 0 || updateFoundListeners > 0 || watched != {}
       || bannerShown || reloadRequested)
        ==> registration.Some?
    }

    constructor ()
      ensures Valid()
      ensures registration.None? && updateCheckInterval.None? && controllerListeners == 0 && updateFoundListeners == 0
      ensures watched == {} && !bannerShown && !reloadRequested && effects == []
    {
      registration := None;
      updateCheckInterval := None;
      controllerListeners, updateFoundListeners := 0, 0;
      watched := {};
      bannerShown, reloadRequested := false, false;
      effects := [];
    }

    /**
     * `initServiceWorker`: `supported` says whether `navigator.serviceWorker`
     * exists, `registered` is what `register` resolves with (`None` when it
     * throws), `intervalId` what `setInterval` returns. On success one update
     * check runs before the hourly interval is stored, both listeners are
     * added and the registration is returned; otherwise null is returned and
     * nothing changes.
     */
    method Init(supported: bool, registered: Option<Registration>, intervalId: nat) returns (r: Option<Registration>)
      requires Valid()
      modifies this
      ensures Valid()
      ensures !supported || registered.None? ==>
        r.None? && registration == old(registration) && updateCheckInterval == old(updateCheckInterval)
        && controllerListeners == old(controllerListeners) && updateFoundListeners == old(updateFoundListeners)
        && effects == old(effects)
      ensures supported && registered.Some? ==>
        r == registered && registration == registered && updateCheckInterval == Some(intervalId)
        && controllerListeners == old(controllerListeners) + 1 && updateFoundListeners == old(updateFoundListeners) + 1
        && effects == old(effects) + [UpdateRequested, IntervalStarted(intervalId)]
      ensures watched == old(watched) && bannerShown == old(bannerShown) && reloadRequested == old(reloadRequested)
    {
      if !supported {
        return None;
      }
      if registered.None? {
        return None;
      }
      registration := registered;
      CheckForUpdates();
      updateCheckInterval := Some(intervalId);
      effects := effects + [IntervalStarted(intervalId)];
      controllerListeners := controllerListeners + 1;
      updateFoundListeners := updateFoundListeners + 1;
      r := registration;
    }

    /** `checkForUpdates`: nothing without a registration; a failed update is caught, so the state is the same either way. */
    method CheckForUpdates()
      requires Valid()
      modifies this
      ensures Valid()
      ensures effects == if old(registration).None? then old(effects) else old(effects) + [UpdateRequested]
      ensures registration == old(registration) && updateCheckInterval == old(updateCheckInterval)
      ensures controllerListeners == old(controllerListeners) && updateFoundListeners == old(updateFoundListeners)
      ensures watched == old(watched) && bannerShown == old(bannerShown) && reloadRequested == old(reloadRequested)
    {
      if registration.Some? {
        effects := effects + [UpdateRequested];
      }
    }

    /** `skipWaiting`: one `SKIP_WAITING` message to the waiting worker, or nothing when none waits. */
    method SkipWaiting()
      requires Valid()
      modifies this
      ensures Valid()
      ensures effects == if old(registration).None? || old(registration).value.waiting.None? then old(effects)
                         else old(effects) + [Posted(old(registration).value.waiting.value, SkipWaitingMessage)]
      ensures registration == old(registration) && updateCheckInterval == old(updateCheckInterval)
      ensures controllerListeners == old(controllerListeners) && updateFoundListeners == old(updateFoundListeners)
      ensures watched == old(watched) && bannerShown == old(bannerShown) && reloadRequested == old(reloadRequested)
    {
      if registration.Some? && registration.value.waiting.Some? {
        effects := effects + [Posted(registration.value.waiting.value, SkipWaitingMessage)];
      }
    }

    /** The banner's "Update Now" button (`window.updateApp`): skip waiting, then remove the banner. */
    method UpdateApp()
      requires Valid()
      modifies this
      ensures Valid()
      ensures effects == if old(registration).None? || old(registration).value.waiting.None? then old(effects)
                         else old(effects) + [Posted(old(registration).value.waiting.value, SkipWaitingMessage)]
      ensures !bannerShown
      ensures registration == old(registration) && updateCheckInterval == old(updateCheckInterval)
      ensures controllerListeners == old(controllerListeners) && updateFoundListeners == old(updateFoundListeners)
      ensures watched == old(watched) && reloadRequested == old(reloadRequested)
    {
      SkipWaiting();
      bannerShown := false;
    }

    /** The banner's "Later" button: remove the banner. */
    method DismissBanner()
      requires Valid()
      modifies this
      ensures Valid()
      ensures !bannerShown
      ensures registration == old(registration) && updateCheckInterval == old(updateCheckInterval) && effects == old(effects)
      ensures controllerListeners == old(controllerListeners) && updateFoundListeners == old(updateFoundListeners)
      ensures watched == old(watched) && reloadRequested == old(reloadRequested)
    {
      bannerShown := false;
    }

    /** The browser changing the registration's worker slots. */
    method SlotsChanged(slots: Registration)
      requires Valid()
      modifies this
      ensures Valid()
      ensures registration == if old(registration).Some? then Some(slots) else None
      ensures updateCheckInterval == old(updateCheckInterval) && effects == old(effects)
      ensures controllerListeners == old(controllerListeners) && updateFoundListeners == old(updateFoundListeners)
      ensures watched == old(watched) && bannerShown == old(bannerShown) && reloadRequested == old(reloadRequested)
    {
      if registration.Some? {
        registration := Some(slots);
      }
    }

    /** `updatefound`: the installing worker, if any, gets a `statechange` listener. */
    method OnUpdateFound()
      requires Valid()
      modifies this
      ensures Valid()
      ensures watched == if old(updateFoundListeners) > 0 && old(registration).Some? && old(registration).value.installing.Some?
                         then old(watched) + {old(registration).value.installing.value} else old(watched)
      ensures registration == old(registration) && updateCheckInterval == old(updateCheckInterval) && effects == old(effects)
      ensures controllerListeners == old(controllerListeners) && updateFoundListeners == old(updateFoundListeners)
      ensures bannerShown == old(bannerShown) && reloadRequested == old(reloadRequested)
    {
      if updateFoundListeners > 0 && registration.Some? && registration.value.installing.Some? {
        watched := watched + {registration.value.installing.value};
      }
    }

    /**
     * `statechange` of a worker: the banner is shown only when a watched
     * worker reaches `installed` while a controller already exists.
     */
    method OnStateChange(worker: WorkerId, state: WorkerState, controllerExists: bool)
      requires Valid()
      modifies this
      ensures Valid()
      ensures bannerShown == (old(bannerShown) || (worker in old(watched) && state == Installed && controllerExists))
      ensures registration == old(registration) && updateCheckInterval == old(updateCheckInterval) && effects == old(effects)
      ensures controllerListeners == old(controllerListeners) && updateFoundListeners == old(updateFoundListeners)
      ensures watched == old(watched) && reloadRequested == old(reloadRequested)
    {
      if worker in watched && state == Installed && controllerExists {
        bannerShown := true;
      }
    }

    /** `controllerchange`: a new worker took control, so the page asks to reload. */
    method OnControllerChange()
      requires Valid()
      modifies this
      ensures Valid()
      ensures reloadRequested == (old(reloadRequested) || old(controllerListeners) > 0)
      ensures registration == old(registration) && updateCheckInterval == old(updateCheckInterval) && effects == old(effects)
      ensures controllerListeners == old(controllerListeners) && updateFoundListeners == old(updateFoundListeners)
      ensures watched == old(watched) && bannerShown == old(bannerShown)
    {
      if controllerListeners > 0 {
        reloadRequested := true;
      }
    }

    /**
     * The first step of `getServiceWorkerVersion`: `APP_VERSION` at once
     * without a registration or a worker; otherwise a `GET_VERSION` message
     * to the selected worker, answered later by a `VersionPromise`.
     */
    method GetVersion() returns (q: VersionQuery)
      requires Valid()
      modifies this
      ensures Valid()
      ensures old(registration).None? ==> q == Answered(Version.AppVersion) && effects == old(effects)
      ensures old(registration).Some? ==>
        match SelectWorker(old(registration).value)
        case None => q == Answered(Version.AppVersion) && effects == old(effects)
        case Some(w) => q == Asked(w) && effects == old(effects) + [Posted(w, GetVersionMessage)]
      ensures registration == old(registration) && updateCheckInterval == old(updateCheckInterval)
      ensures controllerListeners == old(controllerListeners) && updateFoundListeners == old(updateFoundListeners)
      ensures watched == old(watched) && bannerShown == old(bannerShown) && reloadRequested == old(reloadRequested)
    {
      if registration.None? {
        return Answered(Version.AppVersion);
      }
      var sw := SelectWorker(registration.value);
      if sw.None? {
        return Answered(Version.AppVersion);
      }
      effects := effects + [Posted(sw.value, GetVersionMessage)];
      q := Asked(sw.value);
    }

    /**
     * `unregisterServiceWorker`: nothing without a registration; otherwise a
     * truthy interval id is cleared, then the registration is unregistered.
     * Neither `registration` nor `updateCheckInterval` is reset.
     */
    method Unregister()
      requires Valid()
      modifies this
      ensures Valid()
      ensures effects ==
        if old(registration).None? then old(effects)
        else if old(updateCheckInterval).Some? && old(updateCheckInterval).value != 0
        then old(effects) + [IntervalCleared(old(updateCheckInterval).value), Unregistered]
        else old(effects) + [Unregistered]
      ensures registration == old(registration) && updateCheckInterval == old(updateCheckInterval)
      ensures controllerListeners == old(controllerListeners) && updateFoundListeners == old(updateFoundListeners)
      ensures watched == old(watched) && bannerShown == old(bannerShown) && reloadRequested == old(reloadRequested)
    {
      if registration.None? {
        return;
      }
      if updateCheckInterval.Some? && updateCheckInterval.value != 0 {
        effects := effects + [IntervalCleared(updateCheckInterval.value)];
      }
      effects := effects + [Unregistered];
    }
  }
}
