/**
 * The sign-in form: the registration path (field checks in a fixed order,
 * then the SRP triplet, a separate master salt and the sealed unlock
 * challenge posted to the server) and the three-request SRP login path
 * that calls `checkLogin` only after the server's proof checks out.
 */
module LoginFormModel {
  import opened Wrappers
  import opened Platform
  import opened Crypt
  import opened Validators

  const MSG_FILL_FIELDS := "Please fill out all the fields."
  const MSG_MISMATCH := "Passwords do not match."
  const MSG_LENGTH := "Password must be 12 to 256 characters long."
  const MSG_WEAK := "Password must include uppercase and lowercase letters, a number, and a special character."
  const MSG_UNKNOWN := "An unknown error occurred."
  const MSG_CREATED := "Account created. You may now log in."
  const MSG_INTEGRITY := "Failed to verify server integrity."

  /** The bit length of the RFC 5054 4096-bit group the SRP parameters name. */
  const GROUP_BITS := 4096

  /** An API reply; an absent or empty `message` is the empty string. */
  datatype Reply<T> = Reply(success: bool, message: string, data: Option<T>)

  /** `res.message || "An unknown error occurred."`. */
  function ErrorText(message: string): (r: string)
    ensures r != ""
    ensures message != "" ==> r == message
  {
    if message == "" then MSG_UNKNOWN else message
  }

  datatype StartData = StartData(salt: string, b: string, sessionId: string)
  datatype VerifyData = VerifyData(m2: string)

  /** The requests the form posts. */
  datatype Request =
    | RegisterRequest(challenge: string, triplet: string, salt: string)
    | SaltRequest(email: string)
    | StartRequest(email: string, a: string)
    | VerifyRequest(email: string, m1: string, sessionId: string)

  /**
   * The SRP library's client, with its ephemeral secret folded into the
   * functions: `A` after `initialize`, `M1` and the expected `M2` after
   * `setB`, and the serialised verifier triplet.
   */
  datatype SrpClient = SrpClient(
    publicA: (string, string, Bytes) -> Bytes,
    proofM1: (string, string, Bytes, Bytes) -> Bytes,
    expectedM2: (string, string, Bytes, Bytes) -> nat,
    triplet: (string, string, Bytes) -> Bytes)

  /** `btoa(String.fromCharCode(...bytes))`. */
  function ToBase64(p: Prims, bytes: Bytes): (s: string)
    ensures Btoa(p, BinaryString(bytes)) == Some(s)
  {
    CharCodesOfBinaryString(bytes);
    p.encode64(bytes)
  }

  /* ----------------------------- registration ----------------------------- */

  /** The first registration check that fails, in the form's order. */
  function RegistrationError(email: string, password: string, confirm: string): Option<string> {
    if email == "" || password == "" || confirm == "" then Some(MSG_FILL_FIELDS)
    else if password != confirm then Some(MSG_MISMATCH)
    else if |password| < MIN_PASSWORD_LENGTH || |password| > MAX_PASSWORD_LENGTH then Some(MSG_LENGTH)
    else if !ValidatePassword(password) then Some(MSG_WEAK)
    else None
  }

  /**
   * Each message is reported exactly when every earlier check passed and
   * its own failed; the form proceeds only with a confirmed password the
   * policy accepts.
   */
  lemma RegistrationErrorOrder(email: string, password: string, confirm: string)
    ensures RegistrationError(email, password, confirm) == Some(MSG_FILL_FIELDS)
            <==> email == "" || password == "" || confirm == ""
    ensures RegistrationError(email, password, confirm) == Some(MSG_MISMATCH)
            <==> email != "" && password != "" && confirm != "" && password != confirm
    ensures RegistrationError(email, password, confirm) == Some(MSG_LENGTH)
            <==> && email != "" && password != "" && password == confirm
                 && !(MIN_PASSWORD_LENGTH <= |password| <= MAX_PASSWORD_LENGTH)
    ensures RegistrationError(email, password, confirm) == Some(MSG_WEAK)
            <==> && email != "" && password == confirm
                 && MIN_PASSWORD_LENGTH <= |password| <= MAX_PASSWORD_LENGTH
                 && !(HasUpper(password) && HasLower(password) && HasDigit(password) && HasSpecial(password))
    ensures RegistrationError(email, password, confirm) == None
            <==> email != "" && password == confirm && ValidatePassword(password)
  {
  }

  /**
   * The registration body: the sealed unlock-check bytes under the key
   * derived from the password and the master salt, the triplet built with
   * its own SRP salt, and the master salt, each base64-encoded.
   */
  function RegistrationPayload(p: Prims, srp: SrpClient, email: string, password: string,
                               srpSalt: Bytes, masterSalt: Bytes, iv: Nonce): Request
  {
    var key := p.deriveKey(password, masterSalt);
    RegisterRequest(
      ToBase64(p, Sealed(p, key, iv, UNLOCK_CHECK_BYTES)),
      ToBase64(p, srp.triplet(email, password, srpSalt)),
      ToBase64(p, masterSalt))
  }

  /**
   * What the server receives decodes to the challenge and the salts the
   * form used, and the challenge opens under the master key to the
   * unlock-check bytes.
   */
  lemma RegistrationPayloadDecodes(p: Prims, srp: SrpClient, email: string, password: string,
                                   srpSalt: Bytes, masterSalt: Bytes, iv: Nonce)
    requires Lawful(p)
    ensures var r := RegistrationPayload(p, srp, email, password, srpSalt, masterSalt, iv);
            && p.decode64(r.salt) == Some(masterSalt)
            && p.decode64(r.triplet) == Some(srp.triplet(email, password, srpSalt))
            && p.decode64(r.challenge).Some?
            && Decrypt(p, p.decode64(r.challenge).value, p.deriveKey(password, masterSalt)) == Some(UNLOCK_CHECK_BYTES)
  {
    DecryptInvertsEncrypt(p, p.deriveKey(password, masterSalt), iv, UNLOCK_CHECK_BYTES);
  }

  /* -------------------------------- login -------------------------------- */

  /** Whether `SRP_CheckM2` accepts the received proof. */
  predicate M2Matches(expected: nat, received: Bytes) {
    Padded(BigintToBytes(expected, None).value, ByteLen(GROUP_BITS)) == Padded(received, ByteLen(GROUP_BITS))
  }

  /** How a login attempt ends: the requests posted, the error shown and whether `checkLogin` ran. */
  datatype LoginEnd = LoginEnd(requests: seq<Request>, error: Option<string>, checked: bool)

  /**
   * The login path step by step. A reply without success or data stops
   * with its message; a base64 field that `atob` rejects throws, which
   * ends the attempt with no message.
   */
  function LoginFlow(p: Prims, srp: SrpClient, email: string, password: string,
                     saltReply: Reply<string>, startReply: Reply<StartData>,
                     verifyReply: Reply<VerifyData>): LoginEnd
  {
    if email == "" || password == "" then LoginEnd([], Some(MSG_FILL_FIELDS), false)
    else
      var r0 := SaltRequest(email);
      if !saltReply.success || saltReply.data.None? || saltReply.data.value == "" then
        LoginEnd([r0], Some(ErrorText(saltReply.message)), false)
      else match AtobBytes(p, saltReply.data.value)
        case None => LoginEnd([r0], None, false)
        case Some(salt) =>
          var x := SrpExchange(p, srp, email, password, salt, startReply, verifyReply);
          LoginEnd([r0] + x.requests, x.error, x.checked)
  }

  /** The two SRP round trips once the salt is decoded: `A` for `B`, then `M1` for `M2`. */
  function SrpExchange(p: Prims, srp: SrpClient, email: string, password: string, salt: Bytes,
                       startReply: Reply<StartData>, verifyReply: Reply<VerifyData>): LoginEnd
  {
    var r1 := StartRequest(email, ToBase64(p, srp.publicA(email, password, salt)));
    if !startReply.success || startReply.data.None? then
      LoginEnd([r1], Some(ErrorText(startReply.message)), false)
    else match AtobBytes(p, startReply.data.value.b)
      case None => LoginEnd([r1], None, false)
      case Some(b) =>
        var r2 := VerifyRequest(email, ToBase64(p, srp.proofM1(email, password, salt, b)),
                                startReply.data.value.sessionId);
        if !verifyReply.success || verifyReply.data.None? then
          LoginEnd([r1, r2], Some(ErrorText(verifyReply.message)), false)
        else match AtobBytes(p, verifyReply.data.value.m2)
          case None => LoginEnd([r1, r2], None, false)
          case Some(m2) =>
            if M2Matches(srp.expectedM2(email, password, salt, b), m2) then LoginEnd([r1, r2], None, true)
            else LoginEnd([r1, r2], Some(MSG_INTEGRITY), false)
  }

  /** The salt, `B` and `M2` a login attempt decoded, when every reply got that far. */
  predicate RepliesDecode(p: Prims, saltReply: Reply<string>, startReply: Reply<StartData>, verifyReply: Reply<VerifyData>) {
    && saltReply.success && saltReply.data.Some? && saltReply.data.value != "" && p.decode64(saltReply.data.value).Some?
    && startReply.success && startReply.data.Some? && p.decode64(startReply.data.value.b).Some?
    && verifyReply.success && verifyReply.data.Some? && p.decode64(verifyReply.data.value.m2).Some?
  }

  /**
   * `checkLogin` runs exactly when the fields are filled, every reply
   * succeeded and decoded, and `SRP_CheckM2` accepts the server's proof;
   * when everything but that check passes, the integrity error is shown
   * instead. No attempt posts more than three requests, and every one
   * names the entered email.
   */
  lemma LoginGate(p: Prims, srp: SrpClient, email: string, password: string,
                  saltReply: Reply<string>, startReply: Reply<StartData>, verifyReply: Reply<VerifyData>)
    ensures var e := LoginFlow(p, srp, email, password, saltReply, startReply, verifyReply);
            var ok := email != "" && password != "" && RepliesDecode(p, saltReply, startReply, verifyReply);
            && (e.checked <==> ok && M2Matches(ExpectedM2(p, srp, email, password, saltReply, startReply),
                                               p.decode64(verifyReply.data.value.m2).value))
            && (e.checked ==> e.error == None)
            && (ok ==> (e.error == Some(MSG_INTEGRITY) <==>
                          !M2Matches(ExpectedM2(p, srp, email, password, saltReply, startReply),
                                     p.decode64(verifyReply.data.value.m2).value)))
            && |e.requests| <= 3
            && (forall i :: 0 <= i < |e.requests| ==> !e.requests[i].RegisterRequest? && e.requests[i].email == email)
  {
  }

  /** The proof the client expects, from the decoded salt and `B`. */
  function ExpectedM2(p: Prims, srp: SrpClient, email: string, password: string,
                      saltReply: Reply<string>, startReply: Reply<StartData>): nat
    requires saltReply.data.Some? && p.decode64(saltReply.data.value).Some?
    requires startReply.data.Some? && p.decode64(startReply.data.value.b).Some?
  {
    srp.expectedM2(email, password, p.decode64(saltReply.data.value).value, p.decode64(startReply.data.value.b).value)
  }

  /**
   * When the proofs fit the group's byte length, `checkLogin` runs only
   * if the server's `M2` has the value the client computed.
   */
  lemma CheckedLoginProvesServer(p: Prims, srp: SrpClient, email: string, password: string,
                                 saltReply: Reply<string>, startReply: Reply<StartData>, verifyReply: Reply<VerifyData>)
    requires LoginFlow(p, srp, email, password, saltReply, startReply, verifyReply).checked
    requires RepliesDecode(p, saltReply, startReply, verifyReply)
    requires |p.decode64(verifyReply.data.value.m2).value| <= ByteLen(GROUP_BITS)
    requires ExpectedM2(p, srp, email, password, saltReply, startReply) < Pow256(ByteLen(GROUP_BITS))
    ensures BEValue(p.decode64(verifyReply.data.value.m2).value) == ExpectedM2(p, srp, email, password, saltReply, startReply)
  {
    LoginGate(p, srp, email, password, saltReply, startReply, verifyReply);
    SrpCheckM2Meaning(ExpectedM2(p, srp, email, password, saltReply, startReply),
                      p.decode64(verifyReply.data.value.m2).value, GROUP_BITS);
  }

  /* ------------------------------ the form ------------------------------ */

  /** The form's state, the requests it has posted and the passwords it has handed to `checkLogin`. */
  class LoginForm {
    var newAccount: bool
    var error: Option<string>
    var success: Option<string>
    var loading: bool
    var resets: nat
    var sent: seq<Request>
    var loginChecks: seq<string>

    constructor ()
      ensures !newAccount && error == None && success == None && !loading
      ensures resets == 0 && sent == [] && loginChecks == []
    {
      newAccount := false;
      error := None;
      success := None;
      loading := false;
      resets := 0;
      sent := [];
      loginChecks := [];
    }

    /** `handleCreateAccountClick`. */
    method ToggleNewAccount()
      modifies this
      ensures newAccount == !old(newAccount)
      ensures error == old(error) && success == old(success) && loading == old(loading)
      ensures resets == old(resets) && sent == old(sent) && loginChecks == old(loginChecks)
    {
      newAccount := !newAccount;
    }

    /** The registration branch of `handleFormSubmit`. */
    method Register(p: Prims, srp: SrpClient, email: string, password: string, confirm: string,
                    srpSalt: Bytes, masterSalt: Bytes, iv: Nonce, reply: Reply<()>)
      modifies this
      ensures loginChecks == old(loginChecks)
      ensures RegistrationError(email, password, confirm).Some? ==>
                && error == RegistrationError(email, password, confirm) && success == None
                && sent == old(sent) && newAccount == old(newAccount) && loading == old(loading) && resets == old(resets)
      ensures RegistrationError(email, password, confirm).None? ==>
                && sent == old(sent) + [RegistrationPayload(p, srp, email, password, srpSalt, masterSalt, iv)]
                && !loading
                && (reply.success ==> error == None && success == Some(MSG_CREATED) && !newAccount && resets == old(resets) + 1)
                && (!reply.success ==> error == Some(ErrorText(reply.message)) && success == None
                                       && newAccount == old(newAccount) && resets == old(resets))
    {
      error := None;
      success := None;
      if email == "" || password == "" || confirm == "" {
        error := Some(MSG_FILL_FIELDS);
        return;
      }
      if password != confirm {
        error := Some(MSG_MISMATCH);
        return;
      }
      if |password| < 12 || |password| > 256 {
        error := Some(MSG_LENGTH);
        return;
      }
      if !ValidatePassword(password) {
        error := Some(MSG_WEAK);
        return;
      }
      loading := true;
      var triplet := srp.triplet(email, password, srpSalt);
      var masterKey := p.deriveKey(password, masterSalt);
      var challenge := Encrypt(p, UNLOCK_CHECK_BYTES, masterKey, iv);
      sent := sent + [RegisterRequest(ToBase64(p, challenge), ToBase64(p, triplet), ToBase64(p, masterSalt))];
      if !reply.success {
        error := Some(ErrorText(reply.message));
        loading := false;
        return;
      }
      resets := resets + 1;
      newAccount := false;
      success := Some(MSG_CREATED);
      loading := false;
    }

    /** The login branch of `handleFormSubmit`. */
    method Login(p: Prims, srp: SrpClient, email: string, password: string,
                 saltReply: Reply<string>, startReply: Reply<StartData>, verifyReply: Reply<VerifyData>)
      modifies this
      ensures var e := LoginFlow(p, srp, email, password, saltReply, startReply, verifyReply);
              && sent == old(sent) + e.requests
              && error == e.error
              && loginChecks == old(loginChecks) + (if e.checked then [password] else [])
              && loading == (old(loading) && e.requests == [])
      ensures success == None && newAccount == old(newAccount) && resets == old(resets)
    {
      error := None;
      success := None;
      if email == "" || password == "" {
        error := Some(MSG_FILL_FIELDS);
        return;
      }
      loading := true;
      sent := sent + [SaltRequest(email)];
      if !saltReply.success || saltReply.data.None? || saltReply.data.value == "" {
        error := Some(ErrorText(saltReply.message));
        loading := false;
        return;
      }
      var salt := AtobBytes(p, saltReply.data.value);
      if salt.None? {
        loading := false;
        return;
      }
      ghost var before := sent;
      Exchange(p, srp, email, password, salt.value, startReply, verifyReply);
      assert sent == old(sent) + [SaltRequest(email)] + (sent[|before|..]);
    }

    /** The SRP exchange of `handleLogin` after the salt, ending with `loading` cleared. */
    method Exchange(p: Prims, srp: SrpClient, email: string, password: string, salt: Bytes,
                    startReply: Reply<StartData>, verifyReply: Reply<VerifyData>)
      modifies this
      ensures var x := SrpExchange(p, srp, email, password, salt, startReply, verifyReply);
              && sent == old(sent) + x.requests
              && error == (if x.error.Some? then x.error else old(error))
              && loginChecks == old(loginChecks) + (if x.checked then [password] else [])
              && !loading
      ensures success == old(success) && newAccount == old(newAccount) && resets == old(resets)
    {
      var a := srp.publicA(email, password, salt);
      sent := sent + [StartRequest(email, ToBase64(p, a))];
      if !startReply.success || startReply.data.None? {
        error := Some(ErrorText(startReply.message));
        loading := false;
        return;
      }
      var b := AtobBytes(p, startReply.data.value.b);
      if b.None? {
        loading := false;
        return;
      }
      var m1 := ToBase64(p, srp.proofM1(email, password, salt, b.value));
      sent := sent + [VerifyRequest(email, m1, startReply.data.value.sessionId)];
      if !verifyReply.success || verifyReply.data.None? {
        error := Some(ErrorText(verifyReply.message));
        loading := false;
        return;
      }
      var m2 := AtobBytes(p, verifyReply.data.value.m2);
      if m2.None? {
        loading := false;
        return;
      }
      var ok := SrpCheckM2(srp.expectedM2(email, password, salt, b.value), m2.value, GROUP_BITS);
      if !ok {
        error := Some(MSG_INTEGRITY);
        loading := false;
        return;
      }
      loginChecks := loginChecks + [password];
      loading := false;
    }

    /** `handleFormSubmit`: the registration branch always returns before the login flow. */
    method HandleFormSubmit(p: Prims, srp: SrpClient, email: string, password: string, confirm: string,
                            srpSalt: Bytes, masterSalt: Bytes, iv: Nonce, registerReply: Reply<()>,
                            saltReply: Reply<string>, startReply: Reply<StartData>, verifyReply: Reply<VerifyData>)
      modifies this
      ensures old(newAccount) ==> loginChecks == old(loginChecks) && |sent| <= |old(sent)| + 1
      ensures old(newAccount) ==> forall i :: |old(sent)| <= i < |sent| ==> sent[i].RegisterRequest?
      ensures !old(newAccount) ==> sent == old(sent) + LoginFlow(p, srp, email, password, saltReply, startReply, verifyReply).requests
      ensures !old(newAccount) ==>
                loginChecks == old(loginChecks) + (if LoginFlow(p, srp, email, password, saltReply, startReply, verifyReply).checked then [password] else [])
    {
      if newAccount {
        Register(p, srp, email, password, confirm, srpSalt, masterSalt, iv, registerReply);
        return;
      }
      Login(p, srp, email, password, saltReply, startReply, verifyReply);
    }
  }
}
