/**
 * A stand-in for `golang.org/x/crypto/bcrypt` with the properties the
 * services rely on. A hash is the `$2a$10$` prefix (version 2a, the default
 * cost 10), a 22-character salt and a digest of the Blowfish key; checking a
 * password recomputes the hash with the salt stored in the hash. Like
 * bcrypt, the digest depends only on the 72 key bytes Blowfish reads, so a
 * password is only as long as its first 72 bytes. The digest here is those
 * bytes themselves: the model needs it to be injective, not one-way.
 */
module Bcrypt {
  import Text

  const Prefix: string := "$2a$10$"

  /** A character of bcrypt's base-64 alphabet, in which the salt is written. */
  predicate SaltChar(c: char)
  {
    c == '.' || c == '/' || 'A' <= c <= 'Z' || 'a' <= c <= 'z' || '0' <= c <= '9'
  }

  predicate IsSalt(s: string)
  {
    |s| == 22 && forall i | 0 <= i < |s| :: SaltChar(s[i])
  }

  /** The salt `GenerateFromPassword` draws at random. */
  type Salt = s: string | IsSalt(s) witness "......................"

  /** The number of key bytes Blowfish's key schedule reads. */
  const KeyBytes: nat := 72

  /**
   * The bytes Blowfish's key schedule reads of a password: its UTF-8 bytes
   * and the terminating zero bcrypt appends, repeated cyclically to 72
   * bytes. Bytes past the 72nd are never read.
   */
  function Key(password: string): (k: seq<Text.Byte>)
    ensures |k| == KeyBytes
  {
    var b := Text.Utf8Bytes(password) + [0];
    seq(KeyBytes, i requires 0 <= i < KeyBytes => b[i % |b|])
  }

  /**
   * The stand-in digest: a check character, then the key bytes as
   * characters. The check character differs from the key's 30th byte; as
   * the prefix and salt are 29 ASCII characters, a text equal to its own
   * hash would need that byte there, so no text is its own hash.
   */
  function Digest(k: seq<Text.Byte>): (d: string)
    requires |k| == KeyBytes
    ensures |d| == KeyBytes + 1
  {
    [if k[29] == '0' as int then '1' else '0'] + seq(KeyBytes, i requires 0 <= i < KeyBytes => k[i] as char)
  }

  /** `bcrypt.GenerateFromPassword` with the given salt. */
  function Hash(salt: Salt, password: string): (h: string)
    ensures |h| == |Prefix| + 22 + KeyBytes + 1
  {
    Prefix + salt + Digest(Key(password))
  }

  /** `bcrypt.CompareHashAndPassword(hash, password) == nil`. */
  predicate Verify(hash: string, password: string)
  {
    && |hash| >= |Prefix| + 22
    && hash[..|Prefix|] == Prefix
    && IsSalt(hash[|Prefix|..|Prefix| + 22])
    && hash == Hash(hash[|Prefix|..|Prefix| + 22], password)
  }

  /** A hash verifies the password it was made from. */
  lemma VerifyHash(salt: Salt, password: string)
    ensures Verify(Hash(salt, password), password)
  {
    var h := Hash(salt, password);
    assert h[|Prefix|..|Prefix| + 22] == salt;
  }

  /** A hash verifies exactly the passwords with the same Blowfish key. */
  lemma VerifySameKey(salt: Salt, password: string, other: string)
    ensures Verify(Hash(salt, password), other) <==> Key(other) == Key(password)
  {
    var h := Hash(salt, password);
    assert h[|Prefix|..|Prefix| + 22] == salt;
    if Verify(h, other) {
      var d, e := Digest(Key(password)), Digest(Key(other));
      assert h[|Prefix| + 22..] == d;
      assert Hash(salt, other)[|Prefix| + 22..] == e;
      forall i | 0 <= i < KeyBytes
        ensures Key(other)[i] == Key(password)[i]
      {
        assert d[i + 1] == e[i + 1];
      }
    }
  }

  /** The key starts with the password's bytes and the terminating zero. */
  lemma KeyPrefix(password: string, i: nat)
    requires i < KeyBytes && i <= Text.Utf8Length(password)
    ensures Key(password)[i] == if i < Text.Utf8Length(password) then Text.Utf8Bytes(password)[i] else 0
  {
    var b := Text.Utf8Bytes(password) + [0];
    ModBelow(i, |b|);
    assert Key(password)[i] == b[i % |b|];
  }

  lemma ModBelow(i: nat, n: nat)
    requires i < n
    ensures i % n == i
  {
  }

  /** A password with a NUL-free key shorter than 72 bytes ends where its key first holds a zero. */
  lemma ShortKey(password: string)
    requires '\0' !in password && Text.Utf8Length(password) < KeyBytes
    ensures Key(password)[Text.Utf8Length(password)] == 0
    ensures forall i | 0 <= i < Text.Utf8Length(password) :: Key(password)[i] == Text.Utf8Bytes(password)[i] != 0
  {
    KeyPrefix(password, Text.Utf8Length(password));
    forall i | 0 <= i < Text.Utf8Length(password)
      ensures Key(password)[i] == Text.Utf8Bytes(password)[i] != 0
    {
      KeyPrefix(password, i);
    }
  }

  /** A NUL-free password of 72 bytes or more has its first 72 bytes as key, none of them zero. */
  lemma LongKey(password: string)
    requires '\0' !in password && Text.Utf8Length(password) >= KeyBytes
    ensures forall i | 0 <= i < KeyBytes :: Key(password)[i] == Text.Utf8Bytes(password)[i] != 0
  {
    forall i | 0 <= i < KeyBytes
      ensures Key(password)[i] == Text.Utf8Bytes(password)[i] != 0
    {
      KeyPrefix(password, i);
    }
  }

  /** Two NUL-free passwords with the same key, one of them shorter than 72 bytes, are equal. */
  lemma SameShortKey(password: string, other: string)
    requires '\0' !in password && '\0' !in other
    requires Text.Utf8Length(password) < KeyBytes && Key(other) == Key(password)
    ensures other == password
  {
    var m := Text.Utf8Length(password);
    ShortKey(password);
    if Text.Utf8Length(other) >= KeyBytes {
      LongKey(other);
      assert false;
    } else {
      var m' := Text.Utf8Length(other);
      ShortKey(other);
      if m != m' {
        assert false;
      }
      assert Text.Utf8Bytes(other) == Text.Utf8Bytes(password);
      Text.Utf8BytesInjective(other, password);
    }
  }

  /**
   * A hash verifies no other password, when neither holds a NUL and one is
   * shorter than the 72 bytes Blowfish reads.
   */
  lemma VerifyOnlyOriginal(salt: Salt, password: string, other: string)
    requires '\0' !in password && '\0' !in other
    requires Text.Utf8Length(password) < KeyBytes || Text.Utf8Length(other) < KeyBytes
    ensures Verify(Hash(salt, password), other) <==> other == password
  {
    VerifySameKey(salt, password, other);
    if Key(other) == Key(password) {
      if Text.Utf8Length(password) < KeyBytes {
        SameShortKey(password, other);
      } else {
        SameShortKey(other, password);
      }
    }
  }

  /** The hash of a password of 72 bytes or more verifies every extension of it. */
  lemma VerifiesLongExtension(salt: Salt, password: string, extra: string)
    requires Text.Utf8Length(password) >= KeyBytes
    ensures Verify(Hash(salt, password), password + extra)
  {
    Text.Utf8BytesAppend(password, extra);
    Text.Utf8LengthAppend(password, extra);
    forall i | 0 <= i < KeyBytes
      ensures Key(password + extra)[i] == Key(password)[i]
    {
      KeyPrefix(password, i);
      KeyPrefix(password + extra, i);
    }
    assert Key(password + extra) == Key(password);
    VerifySameKey(salt, password, password + extra);
    VerifyHash(salt, password);
  }

  /** A hash is never the plaintext it was made from. */
  lemma HashIsNotPlaintext(salt: Salt, password: string)
    ensures Hash(salt, password) != password
  {
    if Hash(salt, password) == password {
      var head := Prefix + salt;
      assert password[..29] == head;
      assert forall i | 0 <= i < 29 :: password[i] as int < 0x80 by {
        assert forall i | 0 <= i < 22 :: SaltChar(salt[i]);
        assert forall i | 0 <= i < 29 :: password[i] == head[i];
      }
      Text.AsciiHeadByte(password, 29);
      assert password[29] == Digest(Key(password))[0];
      Text.Utf8LengthAtLeast(password);
      KeyPrefix(password, 29);
    }
  }

  /** A password stored without hashing does not verify against itself. */
  lemma PlaintextNeverVerifies(password: string)
    ensures !Verify(password, password)
  {
    if Verify(password, password) {
      HashIsNotPlaintext(password[|Prefix|..|Prefix| + 22], password);
    }
  }
}
