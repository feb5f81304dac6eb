/**
 The hotel secret store: encrypted records with role and guest lists. The cipher is a parameter that
 undoes itself under one root key.
 */
module Vault {
  import opened Wrappers
  import opened Graph

  datatype Cipher = Cipher(encrypt: (string, string) -> string, decrypt: (string, string) -> Option<string>)

  ghost predicate Sound(cipher: Cipher) {
    forall nonce, plaintext :: cipher.decrypt(nonce, cipher.encrypt(nonce, plaintext)) == Some(plaintext)
  }

  datatype Access = Access(role: string, guest: string)

  datatype SecretInput = SecretInput(
    kind: string,
    scope: string,
    allowedRoles: seq<string>,
    allowedGuests: seq<string>,
    plaintext: string)

  /** The randomness and the clock one `store_secret` call draws on. */
  datatype Mint = Mint(uuid: string, nonce: string, now: nat)

  datatype SecretError = RoleDenied | GuestDenied | Undecryptable | NotFound | StorageFailed

  function SecretRef(kind: string, uuid: string): string {
    "secret://hotel/default/" + kind + "/" + uuid
  }

  function Sealed(input: SecretInput, mint: Mint, cipher: Cipher): SecretRecord {
    SecretRecord(
      SecretRef(input.kind, mint.uuid), input.kind, input.scope, input.allowedRoles, input.allowedGuests,
      cipher.encrypt(mint.nonce, input.plaintext), mint.nonce, mint.now, mint.now)
  }

  function Stored(secrets: Secrets, input: SecretInput, mint: Mint, cipher: Cipher): Secrets {
    secrets[SecretRef(input.kind, mint.uuid) := Sealed(input, mint, cipher)]
  }

  /** An empty list admits everyone. */
  predicate Admits(allowed: seq<string>, who: string) {
    allowed == [] || who in allowed
  }

  function Resolve(secrets: Secrets, secretRef: string, access: Access, cipher: Cipher)
    : Result<Option<string>, SecretError>
  {
    if secretRef !in secrets then Success(None)
    else
      var record := secrets[secretRef];
      if !Admits(record.allowedRoles, access.role) then Failure(RoleDenied)
      else if !Admits(record.allowedGuests, access.guest) then Failure(GuestDenied)
      else
        match cipher.decrypt(record.nonce, record.ciphertext)
        case Some(plaintext) => Success(Some(plaintext))
        case None => Failure(Undecryptable)
  }

  function Rotated(secrets: Secrets, secretRef: string, plaintext: string, mint: Mint, cipher: Cipher): Secrets
    requires secretRef in secrets
  {
    secrets[secretRef := secrets[secretRef].(
      ciphertext := cipher.encrypt(mint.nonce, plaintext), nonce := mint.nonce, updatedAt := mint.now)]
  }

  class SecretStore {
    var secrets: Secrets
    const cipher: Cipher

    constructor (cipher: Cipher)
      ensures secrets == map[] && this.cipher == cipher
    {
      secrets, this.cipher := map[], cipher;
    }

    method StoreSecret(input: SecretInput, mint: Mint, fails: bool) returns (r: Result<string, SecretError>)
      modifies this
      ensures r == if fails then Failure(StorageFailed)
                   else Success("secret://hotel/default/" + input.kind + "/" + mint.uuid)
      ensures secrets == if fails then old(secrets) else Stored(old(secrets), input, mint, cipher)
    {
      var secretRef := "secret://hotel/default/" + input.kind + "/" + mint.uuid;
      if fails {
        return Failure(StorageFailed);
      }
      secrets := secrets[secretRef := Sealed(input, mint, cipher)];
      return Success(secretRef);
    }

    method RotateSecret(secretRef: string, plaintext: string, mint: Mint, fails: bool)
      returns (r: Result<(), SecretError>)
      modifies this
      ensures r == if secretRef !in old(secrets) then Failure(NotFound)
                   else if fails then Failure(StorageFailed) else Success(())
      ensures secrets == if r.Success? then Rotated(old(secrets), secretRef, plaintext, mint, cipher) else old(secrets)
    {
      if secretRef !in secrets {
        return Failure(NotFound);
      }
      var record := secrets[secretRef];
      record := record.(ciphertext := cipher.encrypt(mint.nonce, plaintext));
      record := record.(nonce := mint.nonce);
      record := record.(updatedAt := mint.now);
      if fails {
        return Failure(StorageFailed);
      }
      secrets := secrets[secretRef := record];
      return Success(());
    }
  }

  /** A stored secret reads back to those it admits and to nobody else; other secrets are untouched. */
  lemma StoredResolves(secrets: Secrets, input: SecretInput, mint: Mint, cipher: Cipher, other: string, access: Access)
    requires Sound(cipher)
    ensures var secretRef := SecretRef(input.kind, mint.uuid);
      var r := Resolve(Stored(secrets, input, mint, cipher), secretRef, access, cipher);
      && (r.Success? <==> Admits(input.allowedRoles, access.role) && Admits(input.allowedGuests, access.guest))
      && (r.Success? ==> r.value == Some(input.plaintext))
      && (other != secretRef ==>
            Resolve(Stored(secrets, input, mint, cipher), other, access, cipher)
            == Resolve(secrets, other, access, cipher))
  {
  }

  /** The record a stored secret gets: its own ref, kind, scope and lists, dated now; no other record changes. */
  lemma StoredRecordIs(secrets: Secrets, input: SecretInput, mint: Mint, cipher: Cipher)
    ensures var after, r := Stored(secrets, input, mint, cipher), SecretRef(input.kind, mint.uuid);
      && after.Keys == secrets.Keys + {r} && (forall o :: o in secrets && o != r ==> after[o] == secrets[o])
      && after[r].secretRef == r && after[r].kind == input.kind && after[r].scope == input.scope
      && after[r].allowedRoles == input.allowedRoles && after[r].allowedGuests == input.allowedGuests
      && after[r].createdAt == after[r].updatedAt == mint.now
  {
  }

  /**
   What each answer means. An unknown ref is no error; a role is refused before a guest is; an empty
   list refuses nobody.
   */
  lemma ResolveAnswers(secrets: Secrets, secretRef: string, access: Access, cipher: Cipher)
    ensures var r := Resolve(secrets, secretRef, access, cipher);
      && (r == Success(None) <==> secretRef !in secrets)
      && (secretRef in secrets ==>
            var record := secrets[secretRef];
            var roleRefused := |record.allowedRoles| > 0 && access.role !in record.allowedRoles;
            var guestRefused := |record.allowedGuests| > 0 && access.guest !in record.allowedGuests;
            && (r == Failure(RoleDenied) <==> roleRefused)
            && (r == Failure(GuestDenied) <==> guestRefused && !roleRefused)
            && (r.Success? ==> r.value == cipher.decrypt(record.nonce, record.ciphertext) && r.value.Some?)
            && (r == Failure(Undecryptable) <==>
                  !roleRefused && !guestRefused && cipher.decrypt(record.nonce, record.ciphertext).None?))
  {
  }

  /** Rotation replaces the plaintext for exactly the same readers, under the same ref. */
  lemma RotationKeepsReaders(
      secrets: Secrets, secretRef: string, plaintext: string, mint: Mint, cipher: Cipher, other: string, access: Access)
    requires Sound(cipher) && secretRef in secrets
    ensures var after := Rotated(secrets, secretRef, plaintext, mint, cipher);
      && after.Keys == secrets.Keys
      && (match Resolve(secrets, secretRef, access, cipher)
          case Failure(RoleDenied) => Resolve(after, secretRef, access, cipher) == Failure(RoleDenied)
          case Failure(GuestDenied) => Resolve(after, secretRef, access, cipher) == Failure(GuestDenied)
          case _ => Resolve(after, secretRef, access, cipher) == Success(Some(plaintext)))
      && (other != secretRef ==> Resolve(after, other, access, cipher) == Resolve(secrets, other, access, cipher))
      && after[secretRef].scope == secrets[secretRef].scope
      && after[secretRef].createdAt == secrets[secretRef].createdAt && after[secretRef].updatedAt == mint.now
      && after[secretRef].kind == secrets[secretRef].kind && after[secretRef].secretRef == secrets[secretRef].secretRef
  {
    var after := Rotated(secrets, secretRef, plaintext, mint, cipher);
    assert cipher.decrypt(after[secretRef].nonce, after[secretRef].ciphertext) == Some(plaintext);
  }
}
