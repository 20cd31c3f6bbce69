/**
 * The unlock dialog: an online user who is signed in but has no master
 * key enters the password; the key derived from it and the account's
 * master salt is kept only if it opens the stored challenge to the
 * unlock-check bytes.
 */
module UnlockDialog {
  import opened Wrappers
  import opened Types
  import opened Platform
  import opened Crypt

  /** The challenge ciphertext: the stored challenge is base64 of the base64 string registration sent. */
  function ChallengeCiphertext(p: Prims, challenge: string): Option<Bytes> {
    match Atob(p, challenge)
    case Some(inner) => AtobBytes(p, inner)
    case None => None
  }

  /** What one submission ends in. */
  datatype Outcome =
    | Unlocked(key: Key)
    /** The challenge did not decode, did not decrypt, or decrypted to other bytes. */
    | Rejected
    /** `atob(user.salt)` threw before the `try`: the handler stops with `loading` still set. */
    | SaltUnreadable

  /** The decision `handleFormSubmit` takes for an online user. */
  function UnlockOutcome(p: Prims, salt: string, challenge: string, password: string): Outcome {
    match AtobBytes(p, salt)
    case None => SaltUnreadable
    case Some(masterSalt) =>
      var key := p.deriveKey(password, masterSalt);
      match ChallengeCiphertext(p, challenge)
      case None => Rejected
      case Some(ct) =>
        match Decrypt(p, ct, key)
        case None => Rejected
        case Some(plain) => if plain == UNLOCK_CHECK_BYTES then Unlocked(key) else Rejected
  }

  /**
   * A key is accepted only when it is the one derived from the password and
   * the master salt (not the SRP salt) and it opens the challenge to the
   * unlock-check bytes; anything else that gets past the salt is a rejection.
   */
  lemma UnlockOutcomeCases(p: Prims, salt: string, challenge: string, password: string)
    ensures UnlockOutcome(p, salt, challenge, password) == SaltUnreadable <==> p.decode64(salt).None?
    ensures UnlockOutcome(p, salt, challenge, password).Unlocked? <==>
              && p.decode64(salt).Some?
              && ChallengeCiphertext(p, challenge).Some?
              && Decrypt(p, ChallengeCiphertext(p, challenge).value,
                         p.deriveKey(password, p.decode64(salt).value)) == Some(UNLOCK_CHECK_BYTES)
    ensures UnlockOutcome(p, salt, challenge, password).Unlocked? ==>
              UnlockOutcome(p, salt, challenge, password).key == p.deriveKey(password, p.decode64(salt).value)
  {
  }

  /** Reading a binary string's char codes back into a string gives the string. */
  lemma BinaryStringOfCharCodes(s: string)
    requires IsBinary(s)
    ensures BinaryString(CharCodes(s)) == s
  {
    var b := CharCodes(s);
    forall i | 0 <= i < |s|
      ensures BinaryString(b)[i] == s[i]
    {
      assert s[i] as int % 256 == s[i] as int;
    }
  }

  /**
   * Round trip with registration: the challenge the registration form
   * sends (the sealed unlock-check bytes, base64-encoded) and the salt it
   * sends come back from the server base64-encoded once more and once
   * respectively; submitting the registration password then unlocks with
   * the key registration derived.
   */
  lemma RegisteredPasswordUnlocks(p: Prims, password: string, masterSalt: Bytes, iv: Nonce)
    requires Lawful(p)
    requires var sent := p.encode64(Sealed(p, p.deriveKey(password, masterSalt), iv, UNLOCK_CHECK_BYTES));
             forall i :: 0 <= i < |sent| ==> sent[i] as int < 128
    ensures var key := p.deriveKey(password, masterSalt);
            var sent := p.encode64(Sealed(p, key, iv, UNLOCK_CHECK_BYTES));
            UnlockOutcome(p, p.encode64(masterSalt), p.encode64(Ascii(sent)), password) == Unlocked(key)
  {
    var key := p.deriveKey(password, masterSalt);
    var sealed := Sealed(p, key, iv, UNLOCK_CHECK_BYTES);
    var sent := p.encode64(sealed);
    assert Ascii(sent) == CharCodes(sent) by {
      forall i | 0 <= i < |sent| ensures Ascii(sent)[i] == CharCodes(sent)[i] {
        assert sent[i] as int % 256 == sent[i] as int;
      }
    }
    assert IsBinary(sent);
    BinaryStringOfCharCodes(sent);
    assert Atob(p, p.encode64(Ascii(sent))) == Some(sent);
    assert ChallengeCiphertext(p, p.encode64(Ascii(sent))) == Some(sealed);
    DecryptInvertsEncrypt(p, key, iv, UNLOCK_CHECK_BYTES);
  }

  /** The dialog's state: the `error` and `loading` flags and the user context's master key. */
  class UnlockForm {
    const user: User
    var error: bool
    var loading: bool
    var masterKey: Option<Key>

    /** The dialog renders (and so can submit) only for an online user. */
    constructor (user: User)
      requires user.OnlineUser?
      ensures this.user == user && !error && !loading && masterKey == None
    {
      this.user := user;
      error := false;
      loading := false;
      masterKey := None;
    }

    /** `handleFormSubmit`. */
    method HandleFormSubmit(p: Prims, password: string)
      requires user.OnlineUser?
      modifies this
      ensures match UnlockOutcome(p, user.salt, user.challenge, password)
              case SaltUnreadable => loading && error == old(error) && masterKey == old(masterKey)
              case Unlocked(key) => !loading && !error && masterKey == Some(key)
              case Rejected => !loading && error && masterKey == old(masterKey)
    {
      loading := true;
      var salt := AtobBytes(p, user.salt);
      if salt.None? {
        return;
      }
      var key := p.deriveKey(password, salt.value);
      var ct := ChallengeCiphertext(p, user.challenge);
      if ct.Some? {
        var plain := Decrypt(p, ct.value, key);
        if plain.Some? {
          var same := TimingSafeEqual(plain.value, UNLOCK_CHECK_BYTES);
          if same {
            masterKey := Some(key);
            error := false;
          } else {
            error := true;
          }
        } else {
          error := true;
        }
      } else {
        error := true;
      }
      loading := false;
    }
  }
}
