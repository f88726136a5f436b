/** Password hashing with Argon2id (RFC 9106): the cost parameters and salt
    a credential is derived with, the derivation itself and its check.
    The key derivation function and the operating system's random source
    are outside the model and are passed in. */
module Auth {
  import opened Prelude

  /** Length in bytes of every derived key (`keyLen` 32). */
  const KeyLength := 32

  /** Length in bytes of the salt `SetDefaults` draws. */
  const SaltLength := 16

  const DefaultMemory: uint32 := 64 * 1024
  const DefaultTime: uint32 := 1
  const DefaultThreads: uint8 := 4

  /** A derived key: exactly `KeyLength` bytes. */
  type Digest = s: seq<Byte> | |s| == KeyLength witness seq(KeyLength, _ => 0)

  /** `argon2.IDKey(password, salt, time, memory, threads, 32)`: some
      deterministic function of its inputs, returning 32 bytes. */
  type Argon2IdKey = (seq<Byte>, seq<Byte>, uint32, uint32, uint8) -> Digest

  /** What the operating system's random source can deliver: the bytes it
      supplies before it fails, and the message it then fails with. */
  datatype Entropy = Entropy(available: seq<Byte>, failure: string)

  /** The value of an `Argon2Auth`: the cost parameters and the salt. */
  datatype Argon2Params = Argon2Params(memory: uint32, time: uint32, threads: uint8, salt: seq<Byte>)
  {
    /** `HashPassword`: the key derived from the password with these
        parameters and this salt. */
    function HashPassword(kdf: Argon2IdKey, password: seq<Byte>): (h: seq<Byte>)
      ensures |h| == KeyLength
    {
      kdf(password, salt, time, memory, threads)
    }

    /** `VerifyPassword`: re-derives the key and compares it with `expected`,
        lengths included. */
    function VerifyPassword(kdf: Argon2IdKey, password: seq<Byte>, expected: seq<Byte>): (ok: bool)
      ensures ok ==> expected == HashPassword(kdf, password)
      ensures |expected| != KeyLength ==> !ok
    {
      HashPassword(kdf, password) == expected
    }
  }

  /** `generateSalt(n)`: `n` bytes from the random source, or an error;
      never a shorter buffer. */
  function GenerateSalt(n: nat, entropy: Entropy): (r: Result<seq<Byte>>)
    ensures r.Ok? <==> n <= |entropy.available|
    ensures r.Ok? ==> |r.value| == n && r.value == entropy.available[..n]
    ensures r.Err? ==> r.error == "failed to generate salt: " + entropy.failure
  {
    if |entropy.available| < n then Err("failed to generate salt: " + entropy.failure)
    else Ok(entropy.available[..n])
  }

  /** A password always verifies against its own hash. */
  lemma VerifyOwnHash(p: Argon2Params, kdf: Argon2IdKey, password: seq<Byte>)
    ensures p.VerifyPassword(kdf, password, p.HashPassword(kdf, password))
  {
  }

  /** A password whose key differs from the stored one is rejected; with an
      injective derivation, every other password is. */
  lemma VerifyRejectsOtherPassword(p: Argon2Params, kdf: Argon2IdKey, password: seq<Byte>, other: seq<Byte>)
    requires p.HashPassword(kdf, password) != p.HashPassword(kdf, other)
    ensures !p.VerifyPassword(kdf, other, p.HashPassword(kdf, password))
  {
  }

  /** The parameters are part of the derivation: a hash made with other
      parameters is rejected when they derive a different key. */
  lemma VerifyRejectsOtherParams(p: Argon2Params, q: Argon2Params, kdf: Argon2IdKey, password: seq<Byte>)
    requires p.HashPassword(kdf, password) != q.HashPassword(kdf, password)
    ensures !q.VerifyPassword(kdf, password, p.HashPassword(kdf, password))
  {
  }

  /** `Argon2Auth`, whose fields `SetDefaults` assigns in place. */
  class Argon2Auth {
    var memory: uint32
    var time: uint32
    var threads: uint8
    var salt: seq<Byte>

    /** The zero value `&auth.Argon2Auth{}`. */
    constructor ()
      ensures Params() == Argon2Params(0, 0, 0, [])
    {
      memory, time, threads, salt := 0, 0, 0, [];
    }

    /** The struct literal `&auth.Argon2Auth{...}` with given fields. */
    constructor FromParams(p: Argon2Params)
      ensures Params() == p
    {
      memory, time, threads, salt := p.memory, p.time, p.threads, p.salt;
    }

    function Params(): Argon2Params
      reads this
    {
      Argon2Params(memory, time, threads, salt)
    }

    /** `SetDefaults`: the three costs are set first; then a 16-byte salt is
        drawn, and if that fails the error is returned with the salt left as
        it was. */
    method SetDefaults(entropy: Entropy) returns (r: Outcome)
      modifies this
      ensures memory == DefaultMemory && time == DefaultTime && threads == DefaultThreads
      ensures r.Pass? <==> GenerateSalt(SaltLength, entropy).Ok?
      ensures r.Pass? ==> salt == GenerateSalt(SaltLength, entropy).value && |salt| == SaltLength
      ensures r.Fail? ==> r.error == GenerateSalt(SaltLength, entropy).error && salt == old(salt)
    {
      memory := 64 * 1024;
      time := 1;
      threads := 4;
      var generated := GenerateSalt(SaltLength, entropy);
      if generated.Err? {
        return Fail(generated.error);
      }
      salt := generated.value;
      return Pass;
    }
  }
}
