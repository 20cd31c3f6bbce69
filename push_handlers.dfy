/**
 * The push endpoints of the user handlers: validating a browser push
 * subscription (https endpoint, host on the wildcard allow-list, key
 * lengths) and the test-push type dispatch.
 */
module PushHandlers {
  import opened Wrappers
  import opened Platform
  import opened HttpReply
  import opened GoStrings

  /* ------------------------------ host patterns ------------------------------ */

  /**
   * Whether `host` fully matches an allow-list pattern. The handler quotes
   * the pattern and turns each quoted `*` into `.*`, so every character
   * stands for itself and `*` for any run of characters other than a
   * newline (what `.` matches in Go's regular expressions).
   */
  predicate Glob(pat: string, s: string)
    decreases |pat| + |s|
  {
    if pat == [] then s == []
    else if pat[0] == '*' then Glob(pat[1..], s) || (s != [] && s[0] != '\n' && Glob(pat, s[1..]))
    else s != [] && s[0] == pat[0] && Glob(pat[1..], s[1..])
  }

  /** A pattern without `*` matches exactly itself. */
  lemma {:induction false} GlobLiteral(pat: string, s: string)
    requires '*' !in pat
    ensures Glob(pat, s) <==> s == pat
    decreases |pat|
  {
    if pat != [] && s != [] {
      assert '*' !in pat[1..] by { assert forall i :: 0 <= i < |pat| - 1 ==> pat[1..][i] == pat[i + 1]; }
      GlobLiteral(pat[1..], s[1..]);
      if s[1..] == pat[1..] && s[0] == pat[0] {
        assert s == [s[0]] + s[1..] && pat == [pat[0]] + pat[1..];
      }
    }
  }

  /**
   * `*` followed by a literal suffix matches exactly the hosts that end in
   * that suffix after a newline-free prefix, such as `*.push.example.com`.
   */
  lemma {:induction false} GlobStarSuffix(suffix: string, s: string)
    requires '*' !in suffix
    ensures Glob(['*'] + suffix, s) <==>
              |s| >= |suffix| && s[|s| - |suffix|..] == suffix && '\n' !in s[..|s| - |suffix|]
    decreases |s|
  {
    var pat := ['*'] + suffix;
    assert pat[1..] == suffix;
    GlobLiteral(suffix, s);
    if s != [] {
      GlobStarSuffix(suffix, s[1..]);
      var rest := s[1..];
      if |s| > |suffix| {
        assert s[|s| - |suffix|..] == rest[|rest| - |suffix|..];
        assert s[..|s| - |suffix|] == [s[0]] + rest[..|rest| - |suffix|];
      }
    }
  }

  /** The allow-list entries, as `strings.SplitSeq(allowed, ",")` yields them. */
  function Patterns(allowed: string): seq<string> {
    Split(allowed, ',')
  }

  /** Whether one raw allow-list entry admits `host`: blank entries are skipped. */
  predicate EntryAdmits(entry: string, host: string) {
    TrimSpace(entry) != "" && Glob(TrimSpace(entry), host)
  }

  /** Whether some entry of a non-empty allow-list admits `host`. */
  predicate Listed(allowed: string, host: string) {
    exists k :: 0 <= k < |Patterns(allowed)| && EntryAdmits(Patterns(allowed)[k], host)
  }

  /** The loop over the allow-list with its `found` flag. */
  method HostAllowed(allowed: string, host: string) returns (found: bool)
    ensures found <==> Listed(allowed, host)
  {
    var patterns := Patterns(allowed);
    found := false;
    var k := 0;
    while k < |patterns|
      invariant 0 <= k <= |patterns|
      invariant forall j :: 0 <= j < k ==> !EntryAdmits(patterns[j], host)
    {
      var pattern := TrimSpace(patterns[k]);
      if pattern == "" {
        k := k + 1;
        continue;
      }
      if Glob(pattern, host) {
        found := true;
        return;
      }
      k := k + 1;
    }
  }

  /**
   * An allow-list made only of white space and commas admits no host at
   * all; when it is not empty, the handler still consults it and rejects
   * every subscription.
   */
  lemma BlankAllowListAdmitsNothing(allowed: string, host: string)
    requires forall i :: 0 <= i < |allowed| ==> allowed[i] == ',' || IsSpace(allowed[i])
    ensures !Listed(allowed, host)
  {
    var pieces := Patterns(allowed);
    forall k | 0 <= k < |pieces|
      ensures !EntryAdmits(pieces[k], host)
    {
      SplitChars(allowed, ',', k);
      var t := TrimSpace(pieces[k]);
      var i :| TrimmedAt(pieces[k], t, i);
      assert t == [];
    }
  }

  /* ------------------------------ PushSubscribe ------------------------------ */

  /** What `url.Parse` reports: the scheme (empty for a relative reference) and `Hostname()`. */
  datatype ParsedUrl = ParsedUrl(scheme: string, hostname: string)

  datatype PushBody = PushBody(endpoint: string, auth: string, p256dh: string)

  /** The row upserted into `push_subscriptions`; the keys are stored as sent. */
  datatype PushSubscription = PushSubscription(owner: string, endpoint: string, p256dh: string, auth: string)

  /** An absolute https URL (`IsAbs` and scheme `https`). */
  predicate EndpointOk(parseUrl: string -> Option<ParsedUrl>, endpoint: string) {
    parseUrl(endpoint).Some? && parseUrl(endpoint).value.scheme != "" && parseUrl(endpoint).value.scheme == "https"
  }

  /** A key that decodes as unpadded URL-safe base64 to exactly `n` bytes. */
  predicate KeyOfLength(decodeRawUrl: string -> Option<Bytes>, key: string, n: nat) {
    decodeRawUrl(key).Some? && |decodeRawUrl(key).value| == n
  }

  /** Every check `PushSubscribe` makes before the upsert. */
  predicate SubscriptionOk(parseUrl: string -> Option<ParsedUrl>, decodeRawUrl: string -> Option<Bytes>,
                           allowed: string, b: PushBody) {
    && EndpointOk(parseUrl, b.endpoint)
    && (allowed != "" ==> Listed(allowed, parseUrl(b.endpoint).value.hostname))
    && KeyOfLength(decodeRawUrl, b.auth, 16)
    && KeyOfLength(decodeRawUrl, b.p256dh, 65)
  }

  /**
   * `PushSubscribe` for the signed-in `owner`. `allowed` is
   * `PUSH_ALLOWED_ENDPOINTS`; `dbOk` is whether the upsert succeeds.
   */
  method PushSubscribe(owner: string, body: Option<PushBody>, parseUrl: string -> Option<ParsedUrl>,
                       decodeRawUrl: string -> Option<Bytes>, allowed: string, dbOk: bool)
      returns (resp: Response, stored: Option<PushSubscription>)
    ensures stored.Some? <==> body.Some? && SubscriptionOk(parseUrl, decodeRawUrl, allowed, body.value)
    ensures stored.Some? ==> stored.value == PushSubscription(owner, body.value.endpoint, body.value.p256dh, body.value.auth)
    ensures stored.None? ==> resp == BadRequest
    ensures stored.Some? ==> resp == if dbOk then Ok else InternalError
  {
    if body.None? {
      return BadRequest, None;
    }
    var b := body.value;
    var u := parseUrl(b.endpoint);
    if u.None? || u.value.scheme == "" || u.value.scheme != "https" {
      return BadRequest, None;
    }
    if allowed != "" {
      var found := HostAllowed(allowed, u.value.hostname);
      if !found {
        return BadRequest, None;
      }
    }
    var authBytes := decodeRawUrl(b.auth);
    if authBytes.None? || |authBytes.value| != 16 {
      return BadRequest, None;
    }
    var p256dhBytes := decodeRawUrl(b.p256dh);
    if p256dhBytes.None? || |p256dhBytes.value| != 65 {
      return BadRequest, None;
    }
    stored := Some(PushSubscription(owner, b.endpoint, b.p256dh, b.auth));
    resp := if dbOk then Ok else InternalError;
  }

  /** With a single literal host on the list, exactly that host is admitted. */
  lemma SingleHostList(hostPattern: string, host: string)
    requires hostPattern != "" && '*' !in hostPattern && ',' !in hostPattern
    requires !IsSpace(hostPattern[0]) && !IsSpace(hostPattern[|hostPattern| - 1])
    ensures Listed(hostPattern, host) <==> host == hostPattern
  {
    assert Patterns(hostPattern) == [hostPattern];
    var t := TrimSpace(hostPattern);
    var i :| TrimmedAt(hostPattern, t, i);
    assert i == 0 && |t| == |hostPattern|;
    assert t == hostPattern;
    GlobLiteral(hostPattern, host);
    assert EntryAdmits(Patterns(hostPattern)[0], host) <==> host == hostPattern;
  }

  /* -------------------------------- PushTest -------------------------------- */

  datatype PushEvent =
    | Notification(title: string, body: string)
    | SyncPush(originClientId: string)

  /** `PushTest`: only the types "notification" and "sync" send anything. */
  function PushTest(uuid: string, kind: string, origin: string): (r: (Response, Option<PushEvent>))
    ensures r.1.Some? <==> kind in {"notification", "sync"}
    ensures r.0.success <==> r.1.Some?
    ensures kind == "sync" ==> r.1 == Some(SyncPush(origin))
    ensures kind == "notification" ==> r.1 == Some(Notification("Test Notification", "You are user: " + uuid))
  {
    if kind == "notification" then (Ok, Some(Notification("Test Notification", "You are user: " + uuid)))
    else if kind == "sync" then (Ok, Some(SyncPush(origin)))
    else (BadRequest, None)
  }
}
