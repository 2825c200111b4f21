/** The password hasher (`Hash` in the services layer). bcrypt itself is replaced
    by a transparent stand-in with the properties the application relies on:
    a hash verifies exactly the passwords that agree with its own on the
    characters bcrypt reads (the first 72), and the random salt makes two
    hashes of one password differ. */
module AuthHash {

  /** The bcrypt scheme marker and cost. */
  const Scheme: string := "$2b$12$"
  const SaltLength: nat := 22
  /** bcrypt reads at most this many bytes of a password and ignores the rest. */
  const BcryptMaxLength: nat := 72

  /** A salt, drawn at random by the hasher; here an input. */
  type Salt = s: string | |s| == SaltLength witness "0000000000000000000000"

  /** The part of a password bcrypt reads. */
  function Significant(password: string): (p: string)
    ensures |p| <= BcryptMaxLength && p <= password
    ensures |password| <= BcryptMaxLength ==> p == password
  {
    if |password| <= BcryptMaxLength then password else password[..BcryptMaxLength]
  }

  /** `get_password_hash`. */
  function Hash(password: string, salt: Salt): (h: string)
    ensures Verify(password, h)
    ensures h[..|Scheme|] == Scheme && h[|Scheme|..|Scheme| + SaltLength] == salt
    ensures |h| <= |Scheme| + SaltLength + BcryptMaxLength
    ensures h == password ==>
              |password| == |Scheme| + SaltLength + BcryptMaxLength && password[..|Scheme| + SaltLength] == Scheme + salt
  {
    Scheme + salt + Significant(password)
  }

  /** `verify_password`. passlib raises ValueError on a string it does not
      recognise as a hash; every stored hash is made by `Hash`, so that case
      does not arise, and such a string simply verifies nothing here. */
  predicate Verify(plain: string, hashed: string) {
    && |hashed| >= |Scheme| + SaltLength
    && hashed[..|Scheme|] == Scheme
    && hashed[|Scheme| + SaltLength..] == Significant(plain)
  }

  /** Two passwords that verify against one hash agree on the characters
      bcrypt reads; passwords of at most 72 characters are then equal. */
  lemma VerifyDeterminesPassword(p: string, q: string, hashed: string)
    requires Verify(p, hashed) && Verify(q, hashed)
    ensures Significant(p) == Significant(q)
    ensures |p| <= BcryptMaxLength && |q| <= BcryptMaxLength ==> p == q
  {
  }

  /** Hashing one password under two salts gives two different strings. */
  lemma SaltsSeparateHashes(password: string, s1: Salt, s2: Salt)
    requires s1 != s2
    ensures Hash(password, s1) != Hash(password, s2)
  {
  }

  /** A hash verifies exactly the passwords that agree with the hashed one on
      their first 72 characters. */
  lemma HashVerifiesSamePrefix(password: string, other: string, salt: Salt)
    ensures Verify(other, Hash(password, salt)) <==> Significant(other) == Significant(password)
  {
    var h := Hash(password, salt);
    assert h[|Scheme| + SaltLength..] == Significant(password);
  }

  /** bcrypt's truncation: two passwords that differ only after the 72nd
      character verify against the same hash. */
  lemma TruncatedPasswordsCollide(salt: Salt)
    ensures var a72 := seq(BcryptMaxLength, _ => 'a');
            && a72 + "x" != a72 + "y"
            && Verify(a72 + "y", Hash(a72 + "x", salt))
  {
    var a72 := seq(BcryptMaxLength, _ => 'a');
    assert (a72 + "x")[BcryptMaxLength] != (a72 + "y")[BcryptMaxLength];
    assert (a72 + "x")[..BcryptMaxLength] == a72 == (a72 + "y")[..BcryptMaxLength];
    HashVerifiesSamePrefix(a72 + "x", a72 + "y", salt);
  }
}
