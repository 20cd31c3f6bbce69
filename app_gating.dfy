/**
 * Which dialog the application shows, and when the shell loads events:
 * the authentication wrapper and the shell each decide from the signed-in
 * user, the server metadata and the master key, with their own notion of
 * an active subscription.
 */
module AppGating {
  import opened Wrappers
  import opened Types
  import Middleware

  /** `user.subscription_status || ""` for an online user. */
  function StatusOf(user: User): string
    requires user.OnlineUser?
  {
    if user.subscriptionStatus.Some? then user.subscriptionStatus.value else ""
  }

  /* ----------------------- the authentication wrapper ----------------------- */

  /** `activeSub` in the wrapper: an online user whose status is exactly "active". */
  predicate WrapperActiveSub(user: Option<User>) {
    user.Some? && user.value.OnlineUser? && StatusOf(user.value) == "active"
  }

  /** The dialogs the wrapper renders. */
  datatype Dialogs = Dialogs(login: bool, subscription: bool, unlock: bool)

  /**
   * `AuthWrapper`; `subRequired` is `serverMeta?.registration.subscriptionRequired`
   * (absent metadata or an absent flag read as false).
   */
  function WrapperDialogs(user: Option<User>, subRequired: bool, hasMasterKey: bool): Dialogs {
    Dialogs(
      user.None?,
      user.Some? && !WrapperActiveSub(user) && subRequired,
      user.Some? && (WrapperActiveSub(user) || !subRequired) && !hasMasterKey)
  }

  /** The wrapper's effect: `checkLogin` on a url change only with no user and a non-empty url. */
  predicate ShouldCheckLogin(user: Option<User>, url: string) {
    user.None? && url != ""
  }

  /**
   * At most one dialog is shown; none is shown exactly when the user is
   * signed in, unlocked and not held back by the subscription; and the
   * login check only runs while the login dialog is up.
   */
  lemma WrapperDialogsExclusive(user: Option<User>, subRequired: bool, hasMasterKey: bool, url: string)
    ensures var d := WrapperDialogs(user, subRequired, hasMasterKey);
            && !(d.login && d.subscription) && !(d.login && d.unlock) && !(d.subscription && d.unlock)
            && (!d.login && !d.subscription && !d.unlock <==>
                  user.Some? && hasMasterKey && (WrapperActiveSub(user) || !subRequired))
            && (ShouldCheckLogin(user, url) ==> d.login)
  {
  }

  /* -------------------------------- the shell -------------------------------- */

  /** `activeSub` in the shell: an online user whose status is "active" or "trialing". */
  predicate ShellActiveSub(user: Option<User>) {
    user.Some? && user.value.OnlineUser? && StatusOf(user.value) in {"active", "trialing"}
  }

  /** `subRequired` in the shell: only an online user is ever held back. */
  predicate ShellSubRequired(user: Option<User>, metaSubRequired: bool) {
    user.Some? && user.value.OnlineUser? && metaSubRequired
  }

  /** The load effect's guard. */
  predicate ShouldLoad(hasMeta: bool, user: Option<User>, hasMasterKey: bool, metaSubRequired: bool) {
    && hasMeta && user.Some? && hasMasterKey
    && !(!ShellActiveSub(user) && ShellSubRequired(user, metaSubRequired))
  }

  datatype Screen =
    | Blank
    | UnlockScreen
    | SubscriptionScreen
    /** The sidebar, the spinner while saving, and the calendar once events have loaded. */
    | Main(spinner: bool, calendar: bool)

  /** What `AppShell` returns. */
  function ShellScreen(hasStorage: bool, user: Option<User>, hasMeta: bool, hasMasterKey: bool,
                       metaSubRequired: bool, eventsLoaded: bool, saving: bool): Screen
  {
    if !hasStorage || user.None? || !hasMeta then Blank
    else if !hasMasterKey then UnlockScreen
    else if !ShellActiveSub(user) && ShellSubRequired(user, metaSubRequired) then SubscriptionScreen
    else Main(saving, eventsLoaded)
  }

  /**
   * The unlock check comes first, the subscription check second; the main
   * view appears exactly when a load would be allowed, and the calendar in
   * it only once events have arrived.
   */
  lemma ShellScreenOrder(hasStorage: bool, user: Option<User>, hasMeta: bool, hasMasterKey: bool,
                         metaSubRequired: bool, eventsLoaded: bool, saving: bool)
    ensures var s := ShellScreen(hasStorage, user, hasMeta, hasMasterKey, metaSubRequired, eventsLoaded, saving);
            && (s == UnlockScreen <==> hasStorage && user.Some? && hasMeta && !hasMasterKey)
            && (s.Main? <==> hasStorage && ShouldLoad(hasMeta, user, hasMasterKey, metaSubRequired))
            && (s.Main? ==> (s.calendar <==> eventsLoaded) && (s.spinner <==> saving))
  {
  }

  /**
   * The two readings of "active" disagree: a trialing online user on a
   * server that requires subscriptions, once unlocked, gets the wrapper's
   * subscription dialog on top of the shell's calendar.
   */
  lemma TrialingUserSeesBoth(uuid: string, email: string, salt: string, challenge: string, saving: bool, loaded: bool)
    ensures var user := Some(OnlineUser(uuid, email, salt, challenge, Some("trialing")));
            && WrapperDialogs(user, true, true).subscription
            && ShellScreen(true, user, true, true, true, loaded, saving).Main?
  {
  }

  /**
   * The shell starts loading for a trialing user, while the server's
   * subscription check, which passes only "active", refuses the same user
   * whether the status comes from its cache or from a refresh.
   */
  lemma TrialingLoadRefusedByServer(uuid: string, email: string, salt: string, challenge: string,
                                    subId: string, cached: Option<string>, updateOk: bool)
    requires subId != ""
    requires cached.None? || cached == Some("trialing")
    ensures ShouldLoad(true, Some(OnlineUser(uuid, email, salt, challenge, Some("trialing"))), true, true)
    ensures Middleware.SubscriptionDecision(true, Some(subId), cached, updateOk, Some("trialing")) != Middleware.Pass
  {
  }

  /**
   * The wrapper does not ask whether the user is online: a local-only
   * profile on a server that requires subscriptions gets the subscription
   * dialog, while the shell, which does ask, loads its events.
   */
  lemma OfflineUserSeesSubscriptionDialog(saving: bool, loaded: bool)
    ensures WrapperDialogs(Some(OfflineUser), true, true).subscription
    ensures ShouldLoad(true, Some(OfflineUser), true, true)
    ensures ShellScreen(true, Some(OfflineUser), true, true, true, loaded, saving).Main?
  {
  }

  /**
   * The shell's load effect. Each run first runs the previous run's
   * cleanup, which clears that run's `alive` flag; a load that resolves
   * after its run was cleaned up is discarded.
   */
  class ShellLoader {
    /** One `alive` flag per started load, in start order. */
    var alive: seq<bool>
    var calEvents: Option<seq<CalendarEvent>>

    constructor ()
      ensures alive == [] && calEvents == None
    {
      alive := [];
      calEvents := None;
    }

    /** A run of the effect: clean up, then start a load when the guard allows. */
    method RunEffect(hasMeta: bool, user: Option<User>, hasMasterKey: bool, metaSubRequired: bool)
        returns (token: Option<nat>)
      modifies this
      ensures calEvents == old(calEvents)
      ensures |alive| == |old(alive)| + (if ShouldLoad(hasMeta, user, hasMasterKey, metaSubRequired) then 1 else 0)
      ensures forall i :: 0 <= i < |old(alive)| ==> !alive[i]
      ensures token.Some? <==> ShouldLoad(hasMeta, user, hasMasterKey, metaSubRequired)
      ensures token.Some? ==> token.value == |old(alive)| && alive[token.value]
    {
      var cleaned := seq(|alive|, _ => false);
      alive := cleaned;
      if !hasMeta || user.None? {
        return None;
      }
      if !hasMasterKey {
        return None;
      }
      if !ShellActiveSub(user) && ShellSubRequired(user, metaSubRequired) {
        return None;
      }
      alive := alive + [true];
      token := Some(|alive| - 1);
    }

    /** The `then` of load `token`. */
    method Resolve(token: nat, events: seq<CalendarEvent>)
      requires token < |alive|
      modifies this
      ensures alive == old(alive)
      ensures calEvents == if alive[token] then Some(events) else old(calEvents)
    {
      if alive[token] {
        calEvents := Some(events);
      }
    }
  }

  /** A load superseded by a later run of the effect cannot overwrite the events. */
  method SupersededLoadDiscarded(user: User, stale: seq<CalendarEvent>) returns (shown: Option<seq<CalendarEvent>>)
    ensures shown == None
  {
    var loader := new ShellLoader();
    var first := loader.RunEffect(true, Some(user), true, false);
    var second := loader.RunEffect(true, Some(user), true, false);
    assert first.Some? && second.Some?;
    loader.Resolve(first.value, stale);
    shown := loader.calEvents;
  }
}
