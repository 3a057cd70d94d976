/** Symmetric encryption at rest, with Fernet as an abstract cipher. */
module Secrets {
  import opened Wrappers

  /** What decrypting a stored text yields: its plaintext, the domain error for a text that is
      no token of this key, or any other exception (a non-ASCII text fails to encode). */
  datatype Decryption = Plaintext(text: string) | InvalidToken | Raised

  /** `encrypt` takes the moment of the call besides the plaintext: a Fernet token embeds a
      timestamp and a random block, so equal plaintexts give different tokens. */
  datatype Cipher = Cipher(encrypt: (string, nat) -> string, decrypt: string -> Decryption)

  ghost predicate IsAscii(s: string) {
    forall i :: 0 <= i < |s| ==> s[i] as int < 128
  }

  ghost predicate Lawful(cipher: Cipher) {
    && (forall p: string, n: nat {:trigger cipher.encrypt(p, n)} ::
          cipher.encrypt(p, n) != "" && cipher.decrypt(cipher.encrypt(p, n)) == Plaintext(p))
    && (forall t: string {:trigger cipher.decrypt(t)} :: cipher.decrypt(t).Raised? <==> !IsAscii(t))
  }

  /** The plaintext a stored legacy secret stands for: ciphertext is read through the cipher,
      anything else is a pre-encryption plaintext. */
  ghost function LegacyPlaintext(cipher: Cipher, value: string): string {
    match cipher.decrypt(value)
    case Plaintext(p) => p
    case _ => value
  }

  /** `_migrate_secret`: the ciphertext to store, none for an empty secret, or the exception
      that escapes it. */
  function MigrateSecret(cipher: Cipher, value: Option<string>, now: nat): Result<Option<string>, ()> {
    if value.None? || value.value == "" then Success(None)
    else match cipher.decrypt(value.value)
      case Plaintext(_) => Success(value)
      case InvalidToken => Success(Some(cipher.encrypt(value.value, now)))
      case Raised => Failure(())
  }

  /** Whatever form the legacy secret had, what is stored decrypts to its plaintext. */
  lemma SecretSurvives(cipher: Cipher, value: Option<string>, now: nat)
    requires Lawful(cipher)
    ensures MigrateSecret(cipher, value, now).Failure? <==> value.Some? && !IsAscii(value.value)
    ensures MigrateSecret(cipher, value, now) == Success(None) <==> value.None? || value.value == ""
    ensures match MigrateSecret(cipher, value, now)
      case Success(Some(stored)) =>
        stored != "" && cipher.decrypt(stored) == Plaintext(LegacyPlaintext(cipher, value.value))
      case _ => true
  {
  }

  /** Migrating a migrated secret keeps the very same ciphertext, at any later moment. */
  lemma MigrateSecretIdempotent(cipher: Cipher, value: Option<string>, now: nat, later: nat)
    requires Lawful(cipher)
    requires MigrateSecret(cipher, value, now).Success?
    ensures var stored := MigrateSecret(cipher, value, now).value;
      MigrateSecret(cipher, stored, later) == Success(stored)
  {
  }

  // ----- A cipher that meets the law

  function Unary(n: nat): string {
    if n == 0 then "0" else "1" + Unary(n - 1)
  }

  function Token(text: string): string {
    if text == "" then "T" else Unary(text[0] as int) + Token(text[1..])
  }

  lemma {:induction false} UnaryCancels(m: nat, n: nat, a: string, b: string)
    requires Unary(m) + a == Unary(n) + b
    ensures m == n && a == b
  {
    var s, t := Unary(m) + a, Unary(n) + b;
    assert s[0] == t[0];
    if m == 0 || n == 0 {
      assert a == s[1..] && b == t[1..];
    } else {
      assert s[1..] == Unary(m - 1) + a && t[1..] == Unary(n - 1) + b;
      UnaryCancels(m - 1, n - 1, a, b);
    }
  }

  lemma {:induction false} TokenStart(n: nat, a: string)
    ensures (Unary(n) + a)[0] in {'0', '1'}
  {
  }

  lemma {:induction false} TokenInjective(a: string, b: string)
    requires Token(a) == Token(b)
    ensures a == b
  {
    if a == "" || b == "" {
      if a != "" { TokenStart(a[0] as int, Token(a[1..])); }
      if b != "" { TokenStart(b[0] as int, Token(b[1..])); }
    } else {
      UnaryCancels(a[0] as int, b[0] as int, Token(a[1..]), Token(b[1..]));
      TokenInjective(a[1..], b[1..]);
      assert a == [a[0]] + a[1..] && b == [b[0]] + b[1..];
    }
  }

  lemma {:induction false} UnaryAscii(n: nat)
    ensures IsAscii(Unary(n)) && Unary(n) != ""
  {
    if n != 0 { UnaryAscii(n - 1); }
  }

  lemma {:induction false} TokenAscii(text: string)
    ensures IsAscii(Token(text)) && Token(text) != ""
  {
    if text != "" {
      UnaryAscii(text[0] as int);
      TokenAscii(text[1..]);
    }
  }

  ghost function Untoken(token: string): Decryption {
    if !IsAscii(token) then Raised
    else if text :| Token(text) == token then Plaintext(text)
    else InvalidToken
  }

  /** The law the theorems ask of a cipher can be met. */
  lemma LawfulCipherExists()
    ensures exists cipher :: Lawful(cipher)
  {
    var cipher := Cipher((text: string, now: nat) => Token(text), (token: string) => Untoken(token));
    forall text: string, now: nat
      ensures cipher.encrypt(text, now) != "" && cipher.decrypt(cipher.encrypt(text, now)) == Plaintext(text)
    {
      TokenAscii(text);
      assert exists p :: Token(p) == Token(text);
      forall p | Token(p) == Token(text) ensures p == text {
        TokenInjective(p, text);
      }
    }
    assert Lawful(cipher);
  }
}
