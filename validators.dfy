/**
 * Client-side validators: the password policy, the shape check of the
 * server's metadata document, and the URL check (whose parser is a
 * parameter).
 */
module Validators {
  import opened Wrappers
  import opened OrderedMap

  /* ------------------------------ passwords ------------------------------ */

  const MIN_PASSWORD_LENGTH := 12
  const MAX_PASSWORD_LENGTH := 256

  /** The characters the policy counts as special. */
  const SPECIAL_CHARS: string := "!@#$%^&*(),.?\":{}|<>_-\\[];'`~/+="

  predicate IsUpper(c: char) { 'A' <= c <= 'Z' }
  predicate IsLower(c: char) { 'a' <= c <= 'z' }
  predicate IsDigit(c: char) { '0' <= c <= '9' }
  predicate IsSpecial(c: char) { c in SPECIAL_CHARS }

  predicate HasUpper(p: string) { exists i :: 0 <= i < |p| && IsUpper(p[i]) }
  predicate HasLower(p: string) { exists i :: 0 <= i < |p| && IsLower(p[i]) }
  predicate HasDigit(p: string) { exists i :: 0 <= i < |p| && IsDigit(p[i]) }
  predicate HasSpecial(p: string) { exists i :: 0 <= i < |p| && IsSpecial(p[i]) }

  /** `validatePassword`. */
  function ValidatePassword(password: string): (ok: bool)
    ensures ok <==> && MIN_PASSWORD_LENGTH <= |password| <= MAX_PASSWORD_LENGTH
                    && HasUpper(password) && HasLower(password) && HasDigit(password) && HasSpecial(password)
  {
    if password == "" then false
    else
      var lengthValid := |password| >= MIN_PASSWORD_LENGTH && |password| <= MAX_PASSWORD_LENGTH;
      lengthValid && HasUpper(password) && HasLower(password) && HasDigit(password) && HasSpecial(password)
  }

  /** No character belongs to two of the four character classes. */
  lemma CharClassesDisjoint(c: char)
    ensures !(IsUpper(c) && IsLower(c)) && !(IsUpper(c) && IsDigit(c)) && !(IsLower(c) && IsDigit(c))
    ensures IsSpecial(c) ==> !IsUpper(c) && !IsLower(c) && !IsDigit(c)
  {
    if IsSpecial(c) {
      var i :| 0 <= i < |SPECIAL_CHARS| && SPECIAL_CHARS[i] == c;
    }
  }

  /**
   * An accepted password holds an upper-case letter, a lower-case letter,
   * a digit and a special character, and these four are pairwise
   * different characters.
   */
  lemma ValidPasswordFourKinds(password: string)
    requires ValidatePassword(password)
    ensures exists i, j, k, l ::
      && 0 <= i < |password| && 0 <= j < |password| && 0 <= k < |password| && 0 <= l < |password|
      && IsUpper(password[i]) && IsLower(password[j]) && IsDigit(password[k]) && IsSpecial(password[l])
      && password[i] != password[j] && password[i] != password[k] && password[i] != password[l]
      && password[j] != password[k] && password[j] != password[l] && password[k] != password[l]
  {
    var i :| 0 <= i < |password| && IsUpper(password[i]);
    var j :| 0 <= j < |password| && IsLower(password[j]);
    var k :| 0 <= k < |password| && IsDigit(password[k]);
    var l :| 0 <= l < |password| && IsSpecial(password[l]);
    var u, w, d, x := password[i], password[j], password[k], password[l];
    CharClassesDisjoint(u);
    CharClassesDisjoint(w);
    CharClassesDisjoint(d);
    CharClassesDisjoint(x);
    assert u != w && u != d && u != x && w != d && w != x && d != x;
  }

  /** Examples only: one accepted password, and rejected ones that are too short, lack an upper-case letter, or are empty. */
  lemma PasswordExamples()
    ensures ValidatePassword("Correct-Horse1")
    ensures !ValidatePassword("Aa1!")
    ensures !ValidatePassword("correct-horse1")
    ensures !ValidatePassword("")
  {
    var p := "Correct-Horse1";
    assert IsUpper(p[0]) && IsLower(p[1]) && IsDigit(p[13]) && IsSpecial(p[7]);
    var q := "correct-horse1";
    assert forall i :: 0 <= i < |q| ==> !IsUpper(q[i]);
  }

  /* ------------------------------ JSON values ------------------------------ */

  /** A parsed JSON value; an object keeps its members in order (`Object.keys` order). */
  datatype Json =
    | JNull
    | JBool(b: bool)
    | JNumber(n: int)
    | JString(s: string)
    | JArray(items: seq<Json>)
    | JObject(members: seq<(string, Json)>)

  /** `typeof v === "object" && v !== null`: objects and arrays. */
  predicate IsObjectLike(v: Json) {
    v.JObject? || v.JArray?
  }

  /** Property access: `v.key`; `None` is `undefined`. Arrays have no named properties here. */
  function Field(v: Json, key: string): Option<Json> {
    if v.JObject? then Lookup(v.members, key) else None
  }

  /**
   * `Object.keys(v).every(k => allowed.includes(k))`. An array's keys are
   * its index strings, none of which is an allowed name, so an array
   * passes only when empty.
   */
  predicate KeysWithin(v: Json, allowed: set<string>) {
    match v
    case JObject(members) => forall i :: 0 <= i < |members| ==> members[i].0 in allowed
    case JArray(items) => |items| == 0
    case _ => true
  }

  /** `new URL(url).protocol`, or `None` when the constructor throws. */
  type UrlParser = string -> Option<string>

  /** `isValidUrl`: parses, with protocol `http:` or `https:`. */
  predicate IsValidUrl(parse: UrlParser, url: string) {
    parse(url).Some? && parse(url).value in {"http:", "https:"}
  }

  /** An optional member that, when present, must be a string accepted by `isValidUrl`. */
  predicate OptionalUrl(parse: UrlParser, v: Option<Json>) {
    v.None? || (v.value.JString? && IsValidUrl(parse, v.value.s))
  }

  /** `validateServerMeta`, check by check in the source's order. */
  function ValidateServerMeta(parse: UrlParser, data: Json): bool {
    if !IsObjectLike(data) then false
    else if !(Field(data, "url").Some? && Field(data, "url").value.JString? && IsValidUrl(parse, Field(data, "url").value.s)) then false
    else if Field(data, "policies").Some? && !PoliciesOk(parse, Field(data, "policies").value) then false
    else
      var reg := Field(data, "registration");
      if reg.None? || !IsObjectLike(reg.value) then false
      else if !(Field(reg.value, "enabled").Some? && Field(reg.value, "enabled").value.JBool?) then false
      else if Field(reg.value, "email").Some? && !EmailOk(Field(reg.value, "email").value) then false
      else if Field(reg.value, "retentionPeriod").Some? && !Field(reg.value, "retentionPeriod").value.JNumber? then false
      else if !KeysWithin(reg.value, {"enabled", "subscriptionRequired", "email", "retentionPeriod"}) then false
      else KeysWithin(data, {"url", "policies", "registration"})
  }

  /** The `policies` block: an object (or array), optional valid URLs, no other keys. */
  predicate PoliciesOk(parse: UrlParser, p: Json) {
    && IsObjectLike(p)
    && OptionalUrl(parse, Field(p, "privacy"))
    && OptionalUrl(parse, Field(p, "terms"))
    && KeysWithin(p, {"privacy", "terms"})
  }

  /** The `registration.email` block. */
  predicate EmailOk(e: Json) {
    && IsObjectLike(e)
    && Field(e, "verificationRequired").Some? && Field(e, "verificationRequired").value.JBool?
    && Field(e, "domainBlacklist").Some? && Field(e, "domainBlacklist").value.JArray?
    && (forall i :: 0 <= i < |Field(e, "domainBlacklist").value.items| ==> Field(e, "domainBlacklist").value.items[i].JString?)
    && KeysWithin(e, {"verificationRequired", "domainBlacklist"})
  }

  /** A value that is not an object or an array, `null` included, is rejected. */
  lemma NonObjectRejected(parse: UrlParser, data: Json)
    requires data.JNull? || data.JBool? || data.JNumber? || data.JString?
    ensures !ValidateServerMeta(parse, data)
  {
  }

  /** A document without a `url`, or whose `url` is not a string, is rejected. */
  lemma UrlRequired(parse: UrlParser, data: Json)
    requires Field(data, "url").None? || !Field(data, "url").value.JString?
    ensures !ValidateServerMeta(parse, data)
  {
  }

  /** A `policies` member that is present but not an object is rejected. */
  lemma PoliciesNotObjectRejected(parse: UrlParser, data: Json, p: Json)
    requires Field(data, "policies") == Some(p) && !IsObjectLike(p)
    ensures !ValidateServerMeta(parse, data)
  {
  }

  /** A privacy or terms link that is present but not a string, or not a valid URL, is rejected. */
  lemma PolicyUrlRejected(parse: UrlParser, data: Json, p: Json, key: string)
    requires Field(data, "policies") == Some(p) && key in {"privacy", "terms"}
    requires Field(p, key).Some?
    requires !Field(p, key).value.JString? || !IsValidUrl(parse, Field(p, key).value.s)
    ensures !ValidateServerMeta(parse, data)
  {
  }

  /** A key other than `privacy` and `terms` inside `policies` is rejected. */
  lemma PolicyExtraKeyRejected(parse: UrlParser, data: Json, p: Json, i: nat)
    requires Field(data, "policies") == Some(p) && p.JObject? && i < |p.members|
    requires p.members[i].0 !in {"privacy", "terms"}
    ensures !ValidateServerMeta(parse, data)
  {
  }

  /** A non-empty array as `policies` is rejected: its index keys are not allowed names. */
  lemma NonEmptyArrayPoliciesRejected(parse: UrlParser, data: Json, items: seq<Json>)
    requires Field(data, "policies") == Some(JArray(items)) && |items| > 0
    ensures !ValidateServerMeta(parse, data)
  {
  }

  /** A document without a `registration` object is rejected. */
  lemma RegistrationRequired(parse: UrlParser, data: Json)
    requires Field(data, "registration").None? || !IsObjectLike(Field(data, "registration").value)
    ensures !ValidateServerMeta(parse, data)
  {
  }

  /** A `registration` without a boolean `enabled` is rejected. */
  lemma RegistrationEnabledRequired(parse: UrlParser, data: Json, reg: Json)
    requires Field(data, "registration") == Some(reg)
    requires Field(reg, "enabled").None? || !Field(reg, "enabled").value.JBool?
    ensures !ValidateServerMeta(parse, data)
  {
  }

  /** A `registration.email` that is present but not an object is rejected. */
  lemma EmailNotObjectRejected(parse: UrlParser, data: Json, reg: Json, e: Json)
    requires Field(data, "registration") == Some(reg) && Field(reg, "email") == Some(e)
    requires !IsObjectLike(e)
    ensures !ValidateServerMeta(parse, data)
  {
  }

  /** An email block without a boolean `verificationRequired` is rejected. */
  lemma EmailVerificationRequired(parse: UrlParser, data: Json, reg: Json, e: Json)
    requires Field(data, "registration") == Some(reg) && Field(reg, "email") == Some(e)
    requires Field(e, "verificationRequired").None? || !Field(e, "verificationRequired").value.JBool?
    ensures !ValidateServerMeta(parse, data)
  {
  }

  /** An email block whose `domainBlacklist` is missing or not an array is rejected. */
  lemma EmailBlacklistRequired(parse: UrlParser, data: Json, reg: Json, e: Json)
    requires Field(data, "registration") == Some(reg) && Field(reg, "email") == Some(e)
    requires Field(e, "domainBlacklist").None? || !Field(e, "domainBlacklist").value.JArray?
    ensures !ValidateServerMeta(parse, data)
  {
  }

  /** A blacklist entry that is not a string is rejected. */
  lemma BlacklistEntryRejected(parse: UrlParser, data: Json, reg: Json, e: Json, items: seq<Json>, i: nat)
    requires Field(data, "registration") == Some(reg) && Field(reg, "email") == Some(e)
    requires Field(e, "domainBlacklist") == Some(JArray(items)) && i < |items| && !items[i].JString?
    ensures !ValidateServerMeta(parse, data)
  {
  }

  /** A key other than `verificationRequired` and `domainBlacklist` inside the email block is rejected. */
  lemma EmailExtraKeyRejected(parse: UrlParser, data: Json, reg: Json, e: Json, i: nat)
    requires Field(data, "registration") == Some(reg) && Field(reg, "email") == Some(e)
    requires e.JObject? && i < |e.members| && e.members[i].0 !in {"verificationRequired", "domainBlacklist"}
    ensures !ValidateServerMeta(parse, data)
  {
  }

  /** A `retentionPeriod` that is present but not a number is rejected. */
  lemma RetentionNotNumberRejected(parse: UrlParser, data: Json, reg: Json)
    requires Field(data, "registration") == Some(reg)
    requires Field(reg, "retentionPeriod").Some? && !Field(reg, "retentionPeriod").value.JNumber?
    ensures !ValidateServerMeta(parse, data)
  {
  }

  /** A key inside `registration` other than the four allowed ones is rejected. */
  lemma RegistrationExtraKeyRejected(parse: UrlParser, data: Json, reg: Json, i: nat)
    requires Field(data, "registration") == Some(reg) && reg.JObject? && i < |reg.members|
    requires reg.members[i].0 !in {"enabled", "subscriptionRequired", "email", "retentionPeriod"}
    ensures !ValidateServerMeta(parse, data)
  {
  }

  /**
   * What an accepted document guarantees (`data is ServerMetadata`): it is
   * an object with a valid http(s) `url` and a `registration` object
   * holding a boolean `enabled`; every top-level key is one of the three
   * allowed ones.
   */
  lemma AcceptedMetaGuarantees(parse: UrlParser, data: Json)
    requires ValidateServerMeta(parse, data)
    ensures data.JObject?
    ensures Field(data, "url").Some? && Field(data, "url").value.JString? && IsValidUrl(parse, Field(data, "url").value.s)
    ensures Field(data, "registration").Some? && Field(data, "registration").value.JObject?
    ensures Field(Field(data, "registration").value, "enabled").Some? && Field(Field(data, "registration").value, "enabled").value.JBool?
    ensures forall i :: 0 <= i < |data.members| ==> data.members[i].0 in {"url", "policies", "registration"}
  {
  }

  /** A top-level key other than `url`, `policies` and `registration` is rejected whatever else holds. */
  lemma ExtraTopLevelKeyRejected(parse: UrlParser, data: Json, i: nat)
    requires data.JObject? && i < |data.members|
    requires data.members[i].0 !in {"url", "policies", "registration"}
    ensures !ValidateServerMeta(parse, data)
  {
  }

  /** A document whose `url` fails to parse, or is not http(s), is rejected. */
  lemma BadUrlRejected(parse: UrlParser, data: Json, url: string)
    requires Field(data, "url") == Some(JString(url)) && !IsValidUrl(parse, url)
    ensures !ValidateServerMeta(parse, data)
  {
  }

  /** The smallest accepted document: a URL and `registration: {enabled}`. */
  lemma MinimalMetaAccepted(parse: UrlParser, url: string, enabled: bool)
    requires IsValidUrl(parse, url)
    ensures ValidateServerMeta(parse, JObject([("url", JString(url)), ("registration", JObject([("enabled", JBool(enabled))]))]))
  {
    var reg := JObject([("enabled", JBool(enabled))]);
    var data := JObject([("url", JString(url)), ("registration", reg)]);
    var top := data.members;
    assert top[|top| - 1].0 == "registration";
    assert top[..|top| - 1] == [("url", JString(url))];
    assert "url" != "registration" && "policies" != "registration" && "policies" != "url";
    assert Lookup(top, "url") == Lookup([("url", JString(url))], "url");
    assert Field(data, "url") == Some(JString(url));
    assert Lookup([("url", JString(url))], "policies") == Lookup([("url", JString(url))][..0], "policies");
    assert Field(data, "policies") == None;
    assert Field(data, "registration") == Some(reg);
    assert Field(reg, "enabled") == Some(JBool(enabled));
    assert "email" != "enabled" && "retentionPeriod" != "enabled";
    assert reg.members[..|reg.members| - 1] == [];
    assert Lookup(reg.members, "email") == Lookup(reg.members[..|reg.members| - 1], "email");
    assert Lookup(reg.members, "retentionPeriod") == Lookup(reg.members[..|reg.members| - 1], "retentionPeriod");
    assert Field(reg, "email") == None;
    assert Field(reg, "retentionPeriod") == None;
  }

  /** As written, an empty array passes as `policies`: `typeof [] === "object"` and it has no keys. */
  lemma EmptyArrayPolicies(parse: UrlParser)
    ensures PoliciesOk(parse, JArray([]))
  {
  }
}
